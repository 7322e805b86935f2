/** The merged portfolios key: any number of clients run `set_portfolios`, each command to
    the Redis server being one step. */
module RedisPortfolios {
  import opened Options

  type Delta = map<string, string>

  /** What the key holds: a JSON object, or text that is no JSON or no object. */
  datatype Stored = Snapshot(entries: Delta) | NotJson | NotDict

  datatype Client =
    | Idle
    | Locked(value: Delta)                  // inside the lock, before GET
    | Merged(value: Delta, merged: Delta)   // before SET
    | Written(value: Delta)                 // before PUBLISH
    | Published                             // before the lock is released

  /** What the server sees, for the statements only. */
  datatype Event = Set(value: Delta) | Publish(value: Delta) | Reset

  datatype State = State(
    stored: Option<Stored>,
    lock: Option<nat>,
    clients: seq<Client>,
    history: seq<Event>)

  datatype Action =
    | Acquire(c: nat, value: Delta)
    | Get(c: nat)
    | SetKey(c: nat)
    | PublishDelta(c: nat)
    | Release(c: nat)
    | Raise(c: nat)             // a command fails; the lock is released on the way out
    | LockExpires               // the server drops the lock after its timeout
    | KeyExpires
    | Overwrite(junk: Stored)   // somebody else stores junk under the key

  function Start(clients: nat): State {
    State(None, None, seq(clients, _ => Idle), [])
  }

  /** `json.loads(existing_raw) if existing_raw else {}`, and `{}` for anything that is not
      a JSON object. */
  function Existing(stored: Option<Stored>): Delta {
    if stored.Some? && stored.value.Snapshot? then stored.value.entries else map[]
  }

  function Move(s: State, c: nat, pc: Client): State
    requires c < |s.clients|
  {
    s.(clients := s.clients[c := pc])
  }

  function Unlock(s: State, c: nat): State {
    if s.lock == Some(c) then s.(lock := None) else s
  }

  function Next(s: State, a: Action): State {
    match a
    case LockExpires => s.(lock := None)
    case KeyExpires => s.(stored := None, history := s.history + [Reset])
    case Overwrite(junk) =>
      if junk.Snapshot? then s else s.(stored := Some(junk), history := s.history + [Reset])
    case _ => if a.c < |s.clients| then ClientStep(s, a) else s
  }

  function ClientStep(s: State, a: Action): State
    requires !a.LockExpires? && !a.KeyExpires? && !a.Overwrite? && a.c < |s.clients|
  {
    match a
    case Acquire(c, value) =>
      if s.clients[c].Idle? && s.lock.None? then Move(s, c, Locked(value)).(lock := Some(c)) else s
    case Get(c) =>
      if s.clients[c].Locked?
      then Move(s, c, Merged(s.clients[c].value, Existing(s.stored) + s.clients[c].value)) else s
    case SetKey(c) =>
      if s.clients[c].Merged?
      then Move(s, c, Written(s.clients[c].value))
             .(stored := Some(Snapshot(s.clients[c].merged)), history := s.history + [Set(s.clients[c].value)])
      else s
    case PublishDelta(c) =>
      if s.clients[c].Written?
      then Move(s, c, Published).(history := s.history + [Publish(s.clients[c].value)]) else s
    case Release(c) => if s.clients[c].Published? then Unlock(Move(s, c, Idle), c) else s
    case Raise(c) => if !s.clients[c].Idle? then Unlock(Move(s, c, Idle), c) else s
  }

  function Run(s: State, actions: seq<Action>): State
    decreases actions
  {
    if actions == [] then s else Run(Next(s, actions[0]), actions[1..])
  }

  // ---------------------------------------------------------------- the promise

  /** The right-biased merge of deltas, first to last. */
  function MergeAll(deltas: seq<Delta>): Delta {
    if deltas == [] then map[] else MergeAll(deltas[..|deltas| - 1]) + deltas[|deltas| - 1]
  }

  /** The deltas set since the last reset, in the order of the critical sections. */
  function SetSinceReset(history: seq<Event>): seq<Delta> {
    if history == [] then []
    else
      var before, e := SetSinceReset(history[..|history| - 1]), history[|history| - 1];
      if e.Reset? then [] else if e.Set? then before + [e.value] else before
  }

  /** The deltas a subscriber has been sent since the last reset. */
  function PublishedSinceReset(history: seq<Event>): seq<Delta> {
    if history == [] then []
    else
      var before, e := PublishedSinceReset(history[..|history| - 1]), history[|history| - 1];
      if e.Reset? then [] else if e.Publish? then before + [e.value] else before
  }

  predicate Inside(c: Client) {
    !c.Idle?
  }

  /** A client whose critical section is past its GET and not past its PUBLISH. */
  predicate Halfway(c: Client) {
    c.Merged? || c.Written?
  }

  /** The assumptions: critical sections finish within the lock's timeout, no command
      fails between SET and PUBLISH, and no reset falls inside a GET..PUBLISH. */
  ghost predicate Disciplined(s: State, a: Action) {
    && (a.LockExpires? ==> forall c :: 0 <= c < |s.clients| ==> !Inside(s.clients[c]))
    && (a.Raise? && a.c < |s.clients| ==> !s.clients[a.c].Written?)
    && (a.KeyExpires? || a.Overwrite? ==> forall c :: 0 <= c < |s.clients| ==> !Halfway(s.clients[c]))
  }

  ghost predicate DisciplinedRun(s: State, actions: seq<Action>)
    decreases actions
  {
    actions == [] || (Disciplined(s, actions[0]) && DisciplinedRun(Next(s, actions[0]), actions[1..]))
  }

  /** The delta that has been set and not yet published. */
  function Pending(s: State): seq<Delta> {
    if s.lock.Some? && s.lock.value < |s.clients| && s.clients[s.lock.value].Written?
    then [s.clients[s.lock.value].value] else []
  }

  ghost predicate Inv(s: State) {
    && (forall c :: 0 <= c < |s.clients| ==> (Inside(s.clients[c]) <==> s.lock == Some(c)))
    && (s.lock.Some? ==> s.lock.value < |s.clients|)
    && (s.stored.None? || !s.stored.value.Snapshot? ==> SetSinceReset(s.history) == [])
    && Existing(s.stored) == MergeAll(SetSinceReset(s.history))
    && (forall c :: 0 <= c < |s.clients| && s.clients[c].Merged? ==>
          s.clients[c].merged == MergeAll(SetSinceReset(s.history)) + s.clients[c].value)
    && SetSinceReset(s.history) == PublishedSinceReset(s.history) + Pending(s)
  }

  lemma HistoryMore(history: seq<Event>, e: Event)
    ensures SetSinceReset(history + [e]) ==
            if e.Reset? then [] else if e.Set? then SetSinceReset(history) + [e.value] else SetSinceReset(history)
    ensures PublishedSinceReset(history + [e]) ==
            if e.Reset? then []
            else if e.Publish? then PublishedSinceReset(history) + [e.value]
            else PublishedSinceReset(history)
  {
    assert (history + [e])[..|history|] == history;
  }

  lemma MergeMore(deltas: seq<Delta>, delta: Delta)
    ensures MergeAll(deltas + [delta]) == MergeAll(deltas) + delta
  {
    assert (deltas + [delta])[..|deltas|] == deltas;
  }

  lemma KeptByServer(s: State, a: Action)
    requires Inv(s) && Disciplined(s, a) && (a.LockExpires? || a.KeyExpires? || a.Overwrite?)
    ensures Inv(Next(s, a))
  {
    HistoryMore(s.history, Reset);
  }

  lemma KeptBySet(s: State, c: nat)
    requires Inv(s) && c < |s.clients| && s.clients[c].Merged?
    ensures Inv(Next(s, SetKey(c)))
  {
    var v := s.clients[c].value;
    HistoryMore(s.history, Set(v));
    MergeMore(SetSinceReset(s.history), v);
    assert s.lock == Some(c);
  }

  lemma KeptByPublish(s: State, c: nat)
    requires Inv(s) && c < |s.clients| && s.clients[c].Written?
    ensures Inv(Next(s, PublishDelta(c)))
  {
    HistoryMore(s.history, Publish(s.clients[c].value));
    assert s.lock == Some(c);
  }

  lemma KeptByRest(s: State, a: Action)
    requires Inv(s) && Disciplined(s, a)
    requires (a.Acquire? || a.Get? || a.Release? || a.Raise?) && a.c < |s.clients|
    ensures Inv(Next(s, a))
  {
    assert Inside(s.clients[a.c]) <==> s.lock == Some(a.c);
  }

  lemma StepKeepsInv(s: State, a: Action)
    requires Inv(s) && Disciplined(s, a)
    ensures Inv(Next(s, a))
  {
    if a.LockExpires? || a.KeyExpires? || a.Overwrite? {
      KeptByServer(s, a);
    } else if a.c < |s.clients| {
      if a.SetKey? {
        if s.clients[a.c].Merged? {
          KeptBySet(s, a.c);
        }
      } else if a.PublishDelta? {
        if s.clients[a.c].Written? {
          KeptByPublish(s, a.c);
        }
      } else {
        KeptByRest(s, a);
      }
    }
  }

  lemma {:induction false} RunKeepsInv(s: State, actions: seq<Action>)
    requires Inv(s) && DisciplinedRun(s, actions)
    ensures Inv(Run(s, actions))
    decreases actions
  {
    if actions != [] {
      StepKeepsInv(s, actions[0]);
      RunKeepsInv(Next(s, actions[0]), actions[1..]);
    }
  }

  lemma StartInv(clients: nat)
    ensures Inv(Start(clients))
  {
  }

  // ---------------------------------------------------------------- what it means

  /** With any number of writers the stored object is the right-biased merge, in lock
      order, of everything written since the last reset; a subscriber that folds the
      published deltas holds the same, but for a delta about to be published. */
  lemma SnapshotIsTheMerge(clients: nat, run: seq<Action>)
    requires DisciplinedRun(Start(clients), run)
    ensures var s := Run(Start(clients), run);
            && Existing(s.stored) == MergeAll(SetSinceReset(s.history))
            && Existing(s.stored) == MergeAll(PublishedSinceReset(s.history) + Pending(s))
            && (s.lock.None? ==> Existing(s.stored) == MergeAll(PublishedSinceReset(s.history)))
  {
    StartInv(clients);
    RunKeepsInv(Start(clients), run);
    var p := PublishedSinceReset(Run(Start(clients), run).history);
    assert p + [] == p;
  }

  /** A symbol is in the merge when some delta has it, and then with the last such value. */
  lemma {:induction false} MergeKeepsEverySymbol(deltas: seq<Delta>, symbol: string)
    ensures symbol in MergeAll(deltas) <==> exists i :: 0 <= i < |deltas| && symbol in deltas[i]
    ensures forall i :: 0 <= i < |deltas| && symbol in deltas[i]
                && (forall j :: i < j < |deltas| ==> symbol !in deltas[j])
              ==> MergeAll(deltas)[symbol] == deltas[i][symbol]
  {
    if deltas != [] {
      MergeKeepsEverySymbol(deltas[..|deltas| - 1], symbol);
    }
  }

  // ---------------------------------------------------------------- when it does not hold

  function Promised(s: State): Delta {
    MergeAll(SetSinceReset(s.history))
  }

  lemma {:induction false} MergeConcat(a: seq<Delta>, b: seq<Delta>)
    ensures MergeAll(a + b) == MergeAll(a) + MergeAll(b)
  {
    if b == [] {
      assert a + b == a;
    } else {
      var before, last := b[..|b| - 1], b[|b| - 1];
      MergeConcat(a, before);
      assert a + b == (a + before) + [last];
      MergeMore(a + before, last);
      hide MergeAll;
      MergeAssociates(MergeAll(a), MergeAll(before), last);
      assert MergeAll(b) == MergeAll(before) + last by {
        MergeMore(before, last);
        assert before + [last] == b;
      }
    }
  }

  lemma MergeAssociates(x: Delta, y: Delta, z: Delta)
    ensures (x + y) + z == x + (y + z)
  {
  }

  /** A client's whole critical section, undisturbed. */
  function Section(d: nat, w: Delta): seq<Action> {
    [Acquire(d, w), Get(d), SetKey(d), PublishDelta(d), Release(d)]
  }

  function Sections(turns: seq<(nat, Delta)>): seq<Action> {
    if turns == [] then []
    else
      var last := turns[|turns| - 1];
      Sections(turns[..|turns| - 1]) + Section(last.0, last.1)
  }

  function Values(turns: seq<(nat, Delta)>): seq<Delta> {
    if turns == [] then [] else Values(turns[..|turns| - 1]) + [turns[|turns| - 1].1]
  }

  lemma {:induction false} RunConcat(s: State, a: seq<Action>, b: seq<Action>)
    ensures Run(s, a + b) == Run(Run(s, a), b)
    decreases a
  {
    if a == [] {
      assert a + b == b;
    } else {
      var s' := Next(s, a[0]);
      hide Next;
      RunConcat(s', a[1..], b);
      assert (a + b)[1..] == a[1..] + b && (a + b)[0] == a[0];
    }
  }

  lemma RunSection(s: State, d: nat, w: Delta)
    ensures Run(s, Section(d, w))
         == Next(Next(Next(Next(Next(s, Acquire(d, w)), Get(d)), SetKey(d)), PublishDelta(d)), Release(d))
  {
    hide Next;
    RunOne(s, Acquire(d, w), [Get(d), SetKey(d), PublishDelta(d), Release(d)]);
    var s1 := Next(s, Acquire(d, w));
    RunOne(s1, Get(d), [SetKey(d), PublishDelta(d), Release(d)]);
    var s2 := Next(s1, Get(d));
    RunOne(s2, SetKey(d), [PublishDelta(d), Release(d)]);
    var s3 := Next(s2, SetKey(d));
    RunOne(s3, PublishDelta(d), [Release(d)]);
    RunOne(Next(s3, PublishDelta(d)), Release(d), []);
    hide Run;
    assert [Acquire(d, w)] + [Get(d), SetKey(d), PublishDelta(d), Release(d)] == Section(d, w);
    assert [Get(d)] + [SetKey(d), PublishDelta(d), Release(d)] == [Get(d), SetKey(d), PublishDelta(d), Release(d)];
    assert [SetKey(d)] + [PublishDelta(d), Release(d)] == [SetKey(d), PublishDelta(d), Release(d)];
    assert [PublishDelta(d)] + [Release(d)] == [PublishDelta(d), Release(d)];
    assert [Release(d)] + [] == [Release(d)];
    assert Run(Next(Next(s3, PublishDelta(d)), Release(d)), []) == Next(Next(s3, PublishDelta(d)), Release(d)) by {
      RunNone(Next(Next(s3, PublishDelta(d)), Release(d)));
    }
  }

  lemma RunNone(s: State)
    ensures Run(s, []) == s
  {
  }

  lemma RunOne(s: State, a: Action, rest: seq<Action>)
    ensures Run(s, [a] + rest) == Run(Next(s, a), rest)
  {
    assert ([a] + rest)[1..] == rest;
  }

  /** A section that finds the lock free leaves the clients as they were and merges its
      value, whoever else is inside without the lock. */
  lemma SectionSteps(s: State, d: nat, w: Delta)
    requires s.lock.None? && d < |s.clients| && s.clients[d].Idle?
    ensures var s' := Next(Next(Next(Next(Next(s, Acquire(d, w)), Get(d)), SetKey(d)), PublishDelta(d)), Release(d));
            s' == s.(stored := Some(Snapshot(Existing(s.stored) + w)), history := s.history + [Set(w)] + [Publish(w)])
  {
    var s1 := Next(s, Acquire(d, w));
    assert s1 == s.(clients := s.clients[d := Locked(w)], lock := Some(d));
    var s2 := Next(s1, Get(d));
    assert s2 == s1.(clients := s.clients[d := Merged(w, Existing(s.stored) + w)]);
    var s3 := Next(s2, SetKey(d));
    assert s3 == s2.(clients := s.clients[d := Written(w)], stored := Some(Snapshot(Existing(s.stored) + w)),
                     history := s.history + [Set(w)]);
    var s4 := Next(s3, PublishDelta(d));
    assert s4 == s3.(clients := s.clients[d := Published], history := s.history + [Set(w)] + [Publish(w)]);
    assert s.clients[d := Idle] == s.clients;
  }

  /** While a client holds the lock no other begins, and one that has lost its lock does not
      release it; a client that fails before its SET leaves the key, what was set and what was
      published as they were, and the lock free. */
  lemma LockedOut(s: State, c: nat, d: nat, w: Delta)
    requires c < |s.clients| && s.lock == Some(c)
    ensures Next(s, Acquire(d, w)) == s
    ensures d != c ==> Next(s, Release(d)).lock == Next(s, Raise(d)).lock == Some(c)
    ensures s.clients[c].Locked? || s.clients[c].Merged? ==>
              Next(s, Raise(c)) == s.(lock := None, clients := s.clients[c := Idle])
  {
  }

  /** Nothing has changed but that these values were merged and published. */
  ghost predicate Advanced(s: State, s': State, values: seq<Delta>) {
    && s'.clients == s.clients && s'.lock.None?
    && SetSinceReset(s'.history) == SetSinceReset(s.history) + values
    && PublishedSinceReset(s'.history) == PublishedSinceReset(s.history) + values
    && Existing(s'.stored) == Existing(s.stored) + MergeAll(values)
  }

  lemma AdvancedNowhere(s: State)
    requires s.lock.None?
    ensures Advanced(s, s, [])
  {
    assert Existing(s.stored) + map[] == Existing(s.stored);
  }

  lemma AdvancedByOne(s: State, s1: State, s2: State, values: seq<Delta>, w: Delta)
    requires Advanced(s, s1, values)
    requires s2 == s1.(stored := Some(Snapshot(Existing(s1.stored) + w)),
                       history := s1.history + [Set(w)] + [Publish(w)])
    ensures Advanced(s, s2, values + [w])
  {
    hide SetSinceReset, PublishedSinceReset, MergeAll;
    HistoryMore(s1.history, Set(w));
    HistoryMore(s1.history + [Set(w)], Publish(w));
    MergeMore(values, w);
    MergeAssociates(Existing(s.stored), MergeAll(values), w);
  }

  lemma {:induction false} SectionsInBetween(s: State, turns: seq<(nat, Delta)>)
    requires s.lock.None?
    requires forall i :: 0 <= i < |turns| ==> turns[i].0 < |s.clients| && s.clients[turns[i].0].Idle?
    ensures Advanced(s, Run(s, Sections(turns)), Values(turns))
  {
    if turns == [] {
      AdvancedNowhere(s);
    } else {
      var before, last := turns[..|turns| - 1], turns[|turns| - 1];
      SectionsInBetween(s, before);
      var s1 := Run(s, Sections(before));
      assert s1.clients == s.clients && s1.lock.None?;
      hide Next, Run, Advanced;
      RunConcat(s, Sections(before), Section(last.0, last.1));
      RunSection(s1, last.0, last.1);
      SectionSteps(s1, last.0, last.1);
      AdvancedByOne(s, s1, Run(s1, Section(last.0, last.1)), Values(before), last.1);
    }
  }

  /** The lock runs out on client c, others go through, and c writes what it had merged. */
  function Raced(s: State, c: nat, turns: seq<(nat, Delta)>): State {
    Next(Run(Next(s, LockExpires), Sections(turns)), SetKey(c))
  }

  /** What `lost` set, beyond the symbols that `later` sets again, was there already. */
  predicate NothingLost(before: Delta, lost: Delta, later: Delta) {
    forall k :: k in lost && k !in later ==> k in before && before[k] == lost[k]
  }

  lemma LostExactly(before: Delta, lost: Delta, later: Delta)
    ensures before + lost + later == before + later <==> NothingLost(before, lost, later)
  {
    var all, some := before + lost + later, before + later;
    if all == some {
      forall k | k in lost && k !in later ensures k in before && before[k] == lost[k] {
        assert k in all && all[k] == lost[k];
      }
    }
  }

  /** The two deltas give the symbols they share the same values. */
  predicate Agree(v: Delta, w: Delta) {
    forall k :: k in v && k in w ==> v[k] == w[k]
  }

  lemma OrderMatters(p: Delta, v: Delta, w: Delta)
    ensures p + v + w == p + w + v <==> Agree(v, w)
  {
    var vw, wv := p + v + w, p + w + v;
    if vw == wv {
      forall k | k in v && k in w ensures v[k] == w[k] {
        assert vw[k] == w[k] && wv[k] == v[k];
      }
    }
  }

  /** When the lock runs out between a client's GET and its SET and any number of whole
      sections of other clients go through in between, nothing is lost exactly when every
      symbol they set, and the client does not, had its value before. */
  lemma {:induction false} LostUpdateExact(s: State, c: nat, turns: seq<(nat, Delta)>)
    requires Inv(s) && c < |s.clients| && s.clients[c].Merged?
    requires forall i :: 0 <= i < |turns| ==> turns[i].0 < |s.clients| && s.clients[turns[i].0].Idle?
    ensures Existing(Raced(s, c, turns).stored) == Promised(Raced(s, c, turns)) <==>
            NothingLost(Promised(s), MergeAll(Values(turns)), s.clients[c].value)
  {
    LostUpdate(s, c, turns);
    LostExactly(Promised(s), MergeAll(Values(turns)), s.clients[c].value);
    hide *;
  }

  lemma {:induction false} LostUpdate(s: State, c: nat, turns: seq<(nat, Delta)>)
    requires Inv(s) && c < |s.clients| && s.clients[c].Merged?
    requires forall i :: 0 <= i < |turns| ==> turns[i].0 < |s.clients| && s.clients[turns[i].0].Idle?
    ensures var s', v := Raced(s, c, turns), s.clients[c].value;
            Existing(s'.stored) == Promised(s) + v && Promised(s') == Promised(s) + MergeAll(Values(turns)) + v
  {
    var v, h := s.clients[c].value, s.history;
    var s1 := Next(s, LockExpires);
    SectionsInBetween(s1, turns);
    var s2 := Run(s1, Sections(turns));
    HistoryMore(s2.history, Set(v));
    MergeMore(SetSinceReset(s2.history), v);
    MergeConcat(SetSinceReset(h), Values(turns));
    assert Next(s2, SetKey(c)).history == s2.history + [Set(v)];
    hide Run, Sections, Values, MergeAll, SetSinceReset, PublishedSinceReset;
  }

  /** The lock runs out on client c after its GET, d gets the same object, and both set. */
  function Overlapped(s: State, c: nat, d: nat, w: Delta): State {
    Next(Next(Next(Next(Next(s, LockExpires), Acquire(d, w)), Get(d)), SetKey(c)), SetKey(d))
  }

  /** When two sections overlap so, the first client's update is lost, and nothing is lost
      exactly when every symbol it set, and the second does not, had its value before. */
  lemma OverlapExact(s: State, c: nat, d: nat, w: Delta)
    requires Inv(s) && c < |s.clients| && s.clients[c].Merged? && d < |s.clients| && s.clients[d].Idle?
    ensures Existing(Overlapped(s, c, d, w).stored) == Promised(Overlapped(s, c, d, w)) <==>
            NothingLost(Promised(s), s.clients[c].value, w)
  {
    var v, h := s.clients[c].value, s.history;
    OverlapSteps(s, c, d, w);
    hide Next, NothingLost, Inv;
    HistoryMore(h, Set(v));
    HistoryMore(h + [Set(v)], Set(w));
    MergeMore(SetSinceReset(h), v);
    MergeMore(SetSinceReset(h) + [v], w);
    LostExactly(Promised(s), v, w);
  }

  lemma OverlapSteps(s: State, c: nat, d: nat, w: Delta)
    requires Inv(s) && c < |s.clients| && s.clients[c].Merged? && d < |s.clients| && s.clients[d].Idle?
    ensures var s' := Overlapped(s, c, d, w);
            && Existing(s'.stored) == Promised(s) + w
            && s'.history == s.history + [Set(s.clients[c].value)] + [Set(w)]
  {
    var s2 := Next(Next(s, LockExpires), Acquire(d, w));
    assert s2 == s.(clients := s.clients[d := Locked(w)], lock := Some(d));
    var s3 := Next(s2, Get(d));
    assert s3 == s2.(clients := s.clients[d := Merged(w, Existing(s.stored) + w)]);
    var s4 := Next(s3, SetKey(c));
    assert s4.clients[d] == Merged(w, Existing(s.stored) + w);
    hide Inv;
    assert Next(s4, SetKey(d)).stored == Some(Snapshot(Existing(s.stored) + w));
  }

  /** When the lock runs out between a client's SET and its PUBLISH and whole sections of
      others go through in between, its delta is published after theirs, and a subscriber
      ends with the stored object exactly when no symbol was set to two values. */
  lemma {:induction false} OutOfOrderExact(s: State, c: nat, turns: seq<(nat, Delta)>)
    requires Inv(s) && c < |s.clients| && s.clients[c].Written?
    requires forall i :: 0 <= i < |turns| ==> turns[i].0 < |s.clients| && s.clients[turns[i].0].Idle?
    ensures var s' := Next(Run(Next(s, LockExpires), Sections(turns)), PublishDelta(c));
            Existing(s'.stored) == MergeAll(PublishedSinceReset(s'.history)) <==>
            Agree(s.clients[c].value, MergeAll(Values(turns)))
  {
    OutOfOrder(s, c, turns);
    OrderMatters(MergeAll(PublishedSinceReset(s.history)), s.clients[c].value, MergeAll(Values(turns)));
    hide *;
  }

  lemma {:induction false} OutOfOrder(s: State, c: nat, turns: seq<(nat, Delta)>)
    requires Inv(s) && c < |s.clients| && s.clients[c].Written?
    requires forall i :: 0 <= i < |turns| ==> turns[i].0 < |s.clients| && s.clients[turns[i].0].Idle?
    ensures var s' := Next(Run(Next(s, LockExpires), Sections(turns)), PublishDelta(c));
            var v, w, p := s.clients[c].value, MergeAll(Values(turns)), MergeAll(PublishedSinceReset(s.history));
            && Existing(s'.stored) == p + v + w
            && MergeAll(PublishedSinceReset(s'.history)) == p + w + v
  {
    var v, published := s.clients[c].value, PublishedSinceReset(s.history);
    assert s.lock == Some(c);
    MergeMore(published, v);
    var s1 := Next(s, LockExpires);
    SectionsInBetween(s1, turns);
    var s2 := Run(s1, Sections(turns));
    HistoryMore(s2.history, Publish(v));
    MergeMore(published + Values(turns), v);
    MergeConcat(published, Values(turns));
    var s3 := Next(s2, PublishDelta(c));
    assert s3.history == s2.history + [Publish(v)] && s3.stored == s2.stored;
    hide Run, Next, MergeAll, SetSinceReset, PublishedSinceReset, Existing;
  }

  /** The key expires, or somebody else stores junk under it. */
  predicate IsReset(a: Action) {
    a.KeyExpires? || (a.Overwrite? && !a.junk.Snapshot?)
  }

  /** A reset between a client's GET and its SET is undone: the old entries come back, unless
      the client's own delta covers all of them. */
  lemma ResurrectedExact(s: State, c: nat, reset: Action)
    requires Inv(s) && c < |s.clients| && s.clients[c].Merged? && IsReset(reset)
    ensures var s' := Next(Next(s, reset), SetKey(c));
            Existing(s'.stored) == Promised(s') <==> Promised(s).Keys <= s.clients[c].value.Keys
  {
    var v, h := s.clients[c].value, s.history;
    var s1 := Next(s, reset);
    assert s1.clients == s.clients && s1.history == h + [Reset];
    HistoryMore(h, Reset);
    HistoryMore(h + [Reset], Set(v));
    OneDelta(v);
    assert s.clients[c].merged == Promised(s) + v;
    assert Next(s1, SetKey(c)).history == h + [Reset] + [Set(v)];
    hide SetSinceReset, PublishedSinceReset, MergeAll, Inv;
    CoveredExactly(Promised(s), v);
  }

  lemma OneDelta(v: Delta)
    ensures MergeAll([v]) == v && [] + [v] == [v]
  {
    MergeMore([], v);
    assert [] + [v] == [v] && map[] + v == v;
  }

  lemma CoveredExactly(m: Delta, v: Delta)
    ensures m + v == v <==> m.Keys <= v.Keys
  {
    if m + v == v {
      assert forall k :: k in m ==> k in m + v;
    }
  }

  /** A reset between a client's SET and its PUBLISH leaves the key empty and subscribers with
      the delta, unless the delta is empty. */
  lemma LateDeltaExact(s: State, c: nat, reset: Action)
    requires Inv(s) && c < |s.clients| && s.clients[c].Written? && IsReset(reset)
    ensures var s' := Next(Next(s, reset), PublishDelta(c));
            && Existing(s'.stored) == map[] && MergeAll(PublishedSinceReset(s'.history)) == s.clients[c].value
            && (Existing(s'.stored) == MergeAll(PublishedSinceReset(s'.history)) <==> s.clients[c].value == map[])
  {
    LateDelta(s, c, reset);
    hide Next, Existing, MergeAll, PublishedSinceReset, Inv;
  }

  lemma LateDelta(s: State, c: nat, reset: Action)
    requires c < |s.clients| && s.clients[c].Written? && IsReset(reset)
    ensures var s' := Next(Next(s, reset), PublishDelta(c));
            Existing(s'.stored) == map[] && MergeAll(PublishedSinceReset(s'.history)) == s.clients[c].value
  {
    var v, h := s.clients[c].value, s.history;
    var s1 := Next(s, reset);
    assert s1.clients == s.clients && s1.history == h + [Reset];
    assert Existing(s1.stored) == map[];
    hide Existing, IsReset;
    var s2 := Next(s1, PublishDelta(c));
    assert s2.history == h + [Reset] + [Publish(v)] && s2.stored == s1.stored;
    hide Next, MergeAll, SetSinceReset, PublishedSinceReset;
    HistoryMore(h, Reset);
    HistoryMore(h + [Reset], Publish(v));
    OneDelta(v);
  }

  /** A command that fails between SET and PUBLISH leaves subscribers behind, unless they
      had every value of the delta already. */
  lemma LostDeltaExact(s: State, c: nat)
    requires Inv(s) && c < |s.clients| && s.clients[c].Written?
    ensures var s' := Next(s, Raise(c)); var p := MergeAll(PublishedSinceReset(s'.history));
            Existing(s'.stored) == p <==> NothingLost(p, s.clients[c].value, map[])
  {
    var p, v := MergeAll(PublishedSinceReset(s.history)), s.clients[c].value;
    assert s.lock == Some(c);
    MergeMore(PublishedSinceReset(s.history), v);
    assert p + v + map[] == p + v && p + map[] == p;
    LostExactly(p, v, map[]);
    hide NothingLost;
  }

  // ---------------------------------------------------------------- one client by itself

  /** The object a single client talks to, for `set_portfolios` as one call. */
  class RedisOperations {
    var portfolios: Option<Stored>
    var channel: seq<Delta>

    constructor ()
      ensures portfolios == None && channel == []
    {
      portfolios, channel := None, [];
    }

    method SetPortfolios(value: Delta)
      modifies this
      ensures portfolios == Some(Snapshot(Existing(old(portfolios)) + value))
      ensures channel == old(channel) + [value]
      ensures portfolios.Some? && portfolios.value.Snapshot?
      ensures forall k :: k in value ==> k in portfolios.value.entries && portfolios.value.entries[k] == value[k]
      ensures old(portfolios) == None || !old(portfolios).value.Snapshot? ==> portfolios.value.entries == value
      ensures old(portfolios).Some? && old(portfolios).value.Snapshot? ==>
                forall k :: k !in value ==>
                  && (k in portfolios.value.entries <==> k in old(portfolios).value.entries)
                  && (k in portfolios.value.entries ==>
                        portfolios.value.entries[k] == old(portfolios).value.entries[k])
    {
      var merged: Delta := map[];
      if portfolios.Some? {
        match portfolios.value {
          case Snapshot(entries) => merged := entries;
          case NotJson =>
          case NotDict =>
        }
      }
      merged := merged + value;
      portfolios := Some(Snapshot(merged));
      channel := channel + [value];
    }

    /** A series of calls accumulates; it does not keep only the last symbol. */
    method SetAll(values: seq<Delta>)
      requires portfolios == None && channel == []
      modifies this
      ensures Existing(portfolios) == MergeAll(values) && channel == values
    {
      for k := 0 to |values|
        invariant Existing(portfolios) == MergeAll(values[..k]) && channel == values[..k]
      {
        SetPortfolios(values[k]);
        assert values[..k + 1] == values[..k] + [values[k]];
        MergeMore(values[..k], values[k]);
      }
      assert values[..|values|] == values;
    }
  }
}
