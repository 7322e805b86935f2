/** The order set and the trade queue: producers add members and drainers read and remove
    them, every client under the key's lock and each Redis command one step. */
module RedisDrains {
  import opened Options

  /** `get_orders_and_delete` deletes the key; `get_trades` removes what it has read. */
  datatype Kind = Orders | Trades

  datatype Client =
    | Idle
    | Adding(member: string, score: int)
    | Added
    | Draining
    | Fetched(data: seq<string>)
    | Removed(data: seq<string>)   // taken from the key, not yet returned

  /** The history: a member added with its score; what a drain returned; and what was lost,
      a drain having taken it when an exception came in between, or the key having expired. */
  datatype Event = Add(member: string, score: int) | Drain(data: seq<string>) | Lost(data: seq<string>)

  datatype State = State(
    kind: Kind,
    key: map<string, int>,     // the members and their scores
    lock: Option<nat>,
    clients: seq<Client>,
    history: seq<Event>)

  datatype Action =
    | AcquireAdd(c: nat, member: string, score: int)
    | AddMember(c: nat)
    | AcquireDrain(c: nat)
    | Fetch(c: nat, data: seq<string>)
    | Remove(c: nat)
    | Release(c: nat)
    | Raise(c: nat)
    | LockExpires
    | KeyExpires(data: seq<string>)   // an hour after the last add, with these members in it

  function Start(kind: Kind, clients: nat): State {
    State(kind, map[], None, seq(clients, _ => Idle), [])
  }

  ghost predicate NoRepeats(data: seq<string>) {
    forall i, j :: 0 <= i < j < |data| ==> data[i] != data[j]
  }

  function Members(data: seq<string>): set<string> {
    set m | m in data
  }

  /** A reply to `smembers`, or to `zrange 0 -1`: every member once, trades by score. */
  ghost predicate Reply(s: State, data: seq<string>) {
    && Members(data) == s.key.Keys && NoRepeats(data)
    && (s.kind.Trades? ==> ByScore(data, s.key))
  }

  ghost predicate ByScore(data: seq<string>, scores: map<string, int>) {
    forall i, j :: 0 <= i < j < |data| && {data[i], data[j]} <= scores.Keys ==> scores[data[i]] <= scores[data[j]]
  }

  function Move(s: State, c: nat, pc: Client): State
    requires c < |s.clients|
  {
    s.(clients := s.clients[c := pc])
  }

  function Unlock(s: State, c: nat): State {
    if s.lock == Some(c) then s.(lock := None) else s
  }

  /** `sadd` or `zadd`; a member that is there takes the new score. */
  function Store(s: State, member: string, score: int): State {
    s.(key := s.key[member := score], history := s.history + [Add(member, score)])
  }

  /** `delete(key)`, or `zrem(key, *data)`. */
  function Take(s: State, data: seq<string>): State {
    s.(key := if s.kind.Orders? then map[] else s.key - Members(data))
  }

  /** The lock is released and the call returns. */
  function Return(s: State, c: nat): State
    requires c < |s.clients|
  {
    var done := Unlock(Move(s, c, Idle), c);
    if s.clients[c].Removed? then done.(history := s.history + [Drain(s.clients[c].data)]) else done
  }

  /** An exception: the lock is released on the way out and nothing is returned. */
  function Fail(s: State, c: nat): State
    requires c < |s.clients|
  {
    var done := Unlock(Move(s, c, Idle), c);
    if s.clients[c].Removed? then done.(history := s.history + [Lost(s.clients[c].data)]) else done
  }

  /** A key with members expires and loses them. */
  ghost function Expire(s: State, data: seq<string>): State {
    if s.key != map[] && Reply(s, data) then s.(key := map[], history := s.history + [Lost(data)]) else s
  }

  ghost function Next(s: State, a: Action): State {
    if a.LockExpires? then s.(lock := None)
    else if a.KeyExpires? then Expire(s, a.data)
    else if a.c >= |s.clients| then s
    else
      match a
      case AcquireAdd(c, member, score) =>
        if s.clients[c].Idle? && s.lock.None? then Move(s, c, Adding(member, score)).(lock := Some(c)) else s
      case AddMember(c) =>
        if s.clients[c].Adding? then Move(Store(s, s.clients[c].member, s.clients[c].score), c, Added) else s
      case AcquireDrain(c) =>
        if s.clients[c].Idle? && s.lock.None? then Move(s, c, Draining).(lock := Some(c)) else s
      case Fetch(c, data) =>
        if s.clients[c].Draining? && Reply(s, data) then Move(s, c, Fetched(data)) else s
      case Remove(c) =>
        if s.clients[c].Fetched? then Move(Take(s, s.clients[c].data), c, Removed(s.clients[c].data)) else s
      case Release(c) => if s.clients[c].Added? || s.clients[c].Removed? then Return(s, c) else s
      case Raise(c) => if !s.clients[c].Idle? then Fail(s, c) else s
  }

  ghost function Run(s: State, actions: seq<Action>): State
    decreases actions
  {
    if actions == [] then s else Run(Next(s, actions[0]), actions[1..])
  }

  // ---------------------------------------------------------------- the ledger

  /** What was added, with latest scores, and neither returned nor lost since. */
  function Held(history: seq<Event>): map<string, int> {
    if history == [] then map[]
    else Booked(Held(history[..|history| - 1]), history[|history| - 1])
  }

  function Booked(before: map<string, int>, e: Event): map<string, int> {
    if e.Add? then before[e.member := e.score] else before - Members(e.data)
  }

  /** What was added and not returned since. */
  function Outstanding(history: seq<Event>): set<string> {
    if history == [] then {}
    else
      var before, e := Outstanding(history[..|history| - 1]), history[|history| - 1];
      if e.Add? then before + {e.member} else if e.Drain? then before - Members(e.data) else before
  }

  /** What was lost and not added again since. */
  function Missing(history: seq<Event>): set<string> {
    if history == [] then {}
    else
      var before, e := Missing(history[..|history| - 1]), history[|history| - 1];
      if e.Add? then before - {e.member} else if e.Lost? then before + Members(e.data) else before
  }

  /** Every drain took exactly what was held when it ended: all members added since the
      drain before it, each once. */
  ghost predicate ExactDrains(history: seq<Event>) {
    forall i :: 0 <= i < |history| && !history[i].Add? ==>
      Members(history[i].data) == Held(history[..i]).Keys && NoRepeats(history[i].data)
  }

  /** Trades come in the order of their scores. */
  ghost predicate InScoreOrder(history: seq<Event>) {
    forall k :: 0 <= k < |history| && !history[k].Add? ==> ByScore(history[k].data, Held(history[..k]))
  }

  /** The assumptions: critical sections finish within the lock's timeout, and the key does
      not expire between a drain's read and its removal. */
  ghost predicate Disciplined(s: State, a: Action) {
    && (a.LockExpires? ==> forall c :: 0 <= c < |s.clients| ==> s.clients[c].Idle?)
    && (a.KeyExpires? ==> forall c :: 0 <= c < |s.clients| ==> !s.clients[c].Fetched?)
  }

  ghost predicate DisciplinedRun(s: State, actions: seq<Action>)
    decreases actions
  {
    actions == [] || (Disciplined(s, actions[0]) && DisciplinedRun(Next(s, actions[0]), actions[1..]))
  }

  ghost predicate LockInv(s: State) {
    && (forall c :: 0 <= c < |s.clients| ==> (!s.clients[c].Idle? <==> s.lock == Some(c)))
    && (s.lock.Some? ==> s.lock.value < |s.clients|)
  }

  /** What a client has taken from the key and not yet returned. */
  function InFlight(s: State): set<string> {
    if s.lock.Some? && s.lock.value < |s.clients| && s.clients[s.lock.value].Removed?
    then Members(s.clients[s.lock.value].data) else {}
  }

  /** A drain's data are all the members held, each once, trades by score. */
  ghost predicate TakesAll(s: State, data: seq<string>) {
    && Members(data) == Held(s.history).Keys && NoRepeats(data)
    && (s.kind.Trades? ==> ByScore(data, Held(s.history)))
  }

  ghost predicate KeyInv(s: State) {
    && s.key == Held(s.history) - InFlight(s)
    && forall c :: 0 <= c < |s.clients| && (s.clients[c].Fetched? || s.clients[c].Removed?) ==>
         TakesAll(s, s.clients[c].data)
  }

  ghost predicate HistoryInv(s: State) {
    ExactDrains(s.history) && (s.kind.Trades? ==> InScoreOrder(s.history))
  }

  ghost predicate Inv(s: State) {
    LockInv(s) && KeyInv(s) && HistoryInv(s)
  }

  lemma HeldMore(history: seq<Event>, e: Event)
    ensures Held(history + [e]) == Booked(Held(history), e)
  {
    assert (history + [e])[..|history|] == history;
  }

  lemma DrainsMore(history: seq<Event>, e: Event)
    requires ExactDrains(history)
    requires !e.Add? ==> Members(e.data) == Held(history).Keys && NoRepeats(e.data)
    ensures ExactDrains(history + [e])
  {
    var h := history + [e];
    forall i | 0 <= i < |h| && !h[i].Add?
      ensures Members(h[i].data) == Held(h[..i]).Keys && NoRepeats(h[i].data)
    {
      assert h[..i] == history[..i];
      assert history[..|history|] == history;
    }
  }

  lemma OrderMore(history: seq<Event>, e: Event)
    requires InScoreOrder(history)
    requires !e.Add? ==> ByScore(e.data, Held(history))
    ensures InScoreOrder(history + [e])
  {
    var h := history + [e];
    forall k | 0 <= k < |h| && !h[k].Add? ensures ByScore(h[k].data, Held(h[..k])) {
      assert h[..k] == history[..k];
      assert history[..|history|] == history;
    }
  }

  lemma HistoryKept(s: State, e: Event)
    requires HistoryInv(s) && (!e.Add? ==> TakesAll(s, e.data))
    ensures ExactDrains(s.history + [e]) && (s.kind.Trades? ==> InScoreOrder(s.history + [e]))
  {
    hide ExactDrains, InScoreOrder, Held;
    DrainsMore(s.history, e);
    if s.kind.Trades? {
      OrderMore(s.history, e);
    }
  }

  lemma KeptByAdd(s: State, c: nat)
    requires Inv(s) && c < |s.clients| && s.clients[c].Adding?
    ensures Inv(Next(s, AddMember(c)))
  {
    var e := Add(s.clients[c].member, s.clients[c].score);
    hide ExactDrains, InScoreOrder, Held;
    HeldMore(s.history, e);
    HistoryKept(s, e);
    assert s.lock == Some(c);
  }

  lemma KeptByRemove(s: State, c: nat)
    requires Inv(s) && c < |s.clients| && s.clients[c].Fetched?
    ensures Inv(Next(s, Remove(c)))
  {
    hide ExactDrains, InScoreOrder, Held;
    var data := s.clients[c].data;
    assert s.lock == Some(c) && InFlight(s) == {} && TakesAll(s, data);
    assert s.key.Keys == Members(data);
    assert s.key - Members(data) == map[] && Held(s.history) - Members(data) == map[];
  }

  /** The drain returns what it took, or loses it. */
  lemma KeptByEnd(s: State, a: Action)
    requires Inv(s) && (a.Release? || a.Raise?) && a.c < |s.clients| && s.clients[a.c].Removed?
    ensures Inv(Next(s, a))
  {
    hide ExactDrains, InScoreOrder, Held;
    var data := s.clients[a.c].data;
    var e := if a.Release? then Drain(data) else Lost(data);
    assert s.lock == Some(a.c);
    HeldMore(s.history, e);
    HistoryKept(s, e);
  }

  lemma KeptByExpiry(s: State, data: seq<string>)
    requires Inv(s) && Disciplined(s, KeyExpires(data)) && s.key != map[] && Reply(s, data)
    ensures Inv(Expire(s, data))
  {
    hide ExactDrains, InScoreOrder, Held;
    if s.lock.Some? && s.clients[s.lock.value].Removed? {
      assert false;
    }
    assert InFlight(s) == {} && s.key == Held(s.history);
    HeldMore(s.history, Lost(data));
    HistoryKept(s, Lost(data));
  }

  lemma KeptByRest(s: State, a: Action)
    requires Inv(s) && Disciplined(s, a) && !a.AddMember? && !a.Remove? && !a.KeyExpires?
    requires !a.LockExpires? && a.c < |s.clients| && (a.Release? || a.Raise?) ==> !s.clients[a.c].Removed?
    ensures Inv(Next(s, a))
  {
    hide ExactDrains, InScoreOrder, Held;
    if !a.LockExpires? && a.c < |s.clients| {
      assert !s.clients[a.c].Idle? <==> s.lock == Some(a.c);
      if a.Fetch? && s.clients[a.c].Draining? {
        assert InFlight(s) == {} && s.key == Held(s.history);
      }
    }
  }

  lemma StepKeepsInv(s: State, a: Action)
    requires Inv(s) && Disciplined(s, a)
    ensures Inv(Next(s, a))
  {
    if a.AddMember? {
      if a.c < |s.clients| && s.clients[a.c].Adding? {
        KeptByAdd(s, a.c);
      }
    } else if a.Remove? {
      if a.c < |s.clients| && s.clients[a.c].Fetched? {
        KeptByRemove(s, a.c);
      }
    } else if (a.Release? || a.Raise?) && a.c < |s.clients| && s.clients[a.c].Removed? {
      KeptByEnd(s, a);
    } else if a.KeyExpires? {
      if s.key != map[] && Reply(s, a.data) {
        KeptByExpiry(s, a.data);
      }
    } else {
      KeptByRest(s, a);
    }
  }

  lemma {:induction false} RunKeepsInv(s: State, actions: seq<Action>)
    requires Inv(s) && DisciplinedRun(s, actions)
    ensures Inv(Run(s, actions)) && Run(s, actions).kind == s.kind
    decreases actions
  {
    if actions != [] {
      StepKeepsInv(s, actions[0]);
      RunKeepsInv(Next(s, actions[0]), actions[1..]);
    }
  }

  /** Under any interleaving with the lock held, any exceptions and expiries: the key holds
      what was added and neither returned nor lost since, but for what a drain has in its
      hands; every drain took exactly what was held, each member once, and trades came in
      score order. */
  lemma DrainsAreExact(kind: Kind, clients: nat, run: seq<Action>)
    requires DisciplinedRun(Start(kind, clients), run)
    ensures var s := Run(Start(kind, clients), run);
            && s.key == Held(s.history) - InFlight(s) && ExactDrains(s.history)
            && (kind.Trades? ==> InScoreOrder(s.history))
  {
    RunKeepsInv(Start(kind, clients), run);
  }

  // ---------------------------------------------------------------- conservation

  lemma {:induction false} OutstandingSplits(h: seq<Event>)
    requires ExactDrains(h)
    ensures Outstanding(h) == Held(h).Keys + Missing(h) && Held(h).Keys !! Missing(h)
  {
    if h != [] {
      var before, e := h[..|h| - 1], h[|h| - 1];
      assert forall i :: 0 <= i < |before| ==> before[..i] == h[..i];
      assert !e.Add? ==> Members(e.data) == Held(before).Keys;
      OutstandingSplits(before);
      hide ExactDrains;
    }
  }

  /** Everything added is returned, in the key, in the hands of a drain, or lost: what is
      added and not returned is, without overlap, the key, what is in flight, and what an
      exception after the removal or an expiry has lost. */
  lemma Conservation(kind: Kind, clients: nat, run: seq<Action>)
    requires DisciplinedRun(Start(kind, clients), run)
    ensures var s := Run(Start(kind, clients), run);
            && Outstanding(s.history) == s.key.Keys + InFlight(s) + Missing(s.history)
            && s.key.Keys !! InFlight(s) !! Missing(s.history)
  {
    RunKeepsInv(Start(kind, clients), run);
    var s := Run(Start(kind, clients), run);
    OutstandingSplits(s.history);
    hide Run, DisciplinedRun, Held, Missing, Outstanding, ExactDrains, InScoreOrder;
    assert InFlight(s) <= Held(s.history).Keys;
  }

  /** An exception after a drain's removal loses exactly the members the drain had taken, so
      it is harmless exactly when there were none. */
  lemma LostDrainExact(s: State, c: nat)
    requires Inv(s) && c < |s.clients| && s.clients[c].Removed?
    ensures var s', data := Next(s, Raise(c)), s.clients[c].data;
            && Missing(s'.history) == Missing(s.history) + Members(data)
            && Missing(s.history) !! Members(data)
            && s'.key == s.key && Outstanding(s'.history) == Outstanding(s.history)
            && (Missing(s'.history) == Missing(s.history) <==> data == [])
  {
    var h, data := s.history, s.clients[c].data;
    assert (h + [Lost(data)])[..|h|] == h;
    OutstandingSplits(h);
    assert TakesAll(s, data);
    hide Held, ExactDrains, InScoreOrder;
    if data != [] {
      assert data[0] in Members(data);
    }
  }

  // ---------------------------------------------------------------- delivered by exactly one

  lemma {:induction false} StaysHeld(h: seq<Event>, i: nat, n: nat)
    requires i < n <= |h| && h[i].Add?
    requires forall k :: i < k < n ==> h[k].Add?
    ensures h[i].member in Held(h[..n])
  {
    assert h[..n][..n - 1] == h[..n - 1];
    if i < n - 1 {
      StaysHeld(h, i, n - 1);
    }
  }

  lemma {:induction false} StaysGone(h: seq<Event>, m: string, k: nat, n: nat)
    requires k <= n <= |h| && m !in Held(h[..k])
    requires forall j :: k <= j < n ==> !(h[j].Add? && h[j].member == m)
    ensures m !in Held(h[..n])
  {
    if k < n {
      assert h[..n][..n - 1] == h[..n - 1];
      StaysGone(h, m, k, n - 1);
    }
  }

  /** A member is in the data of the first drain or expiry after it was added, and of no
      later one unless it is added again: so exactly one drain returns it, unless an
      exception or an expiry loses it. */
  lemma DeliveredByExactlyOneDrain(kind: Kind, clients: nat, run: seq<Action>, i: nat, k: nat, l: nat)
    requires DisciplinedRun(Start(kind, clients), run)
    requires var h := Run(Start(kind, clients), run).history;
             && i < k < l < |h| && h[i].Add? && !h[k].Add? && !h[l].Add?
             && (forall j :: i < j < k ==> h[j].Add?)
             && (forall j :: k < j < l ==> !(h[j].Add? && h[j].member == h[i].member))
    ensures var h := Run(Start(kind, clients), run).history;
            h[i].member in h[k].data && h[i].member !in h[l].data
  {
    DrainsAreExact(kind, clients, run);
    var h := Run(Start(kind, clients), run).history;
    hide Run, DisciplinedRun;
    var m := h[i].member;
    StaysHeld(h, i, k);
    assert m in Members(h[k].data);
    assert h[..k + 1][..k] == h[..k];
    StaysGone(h, m, k + 1, l);
    assert m !in Members(h[l].data);
  }

  // ---------------------------------------------------------------- without the lock

  /** When the lock is lost between a drain's read and its removal, a member added in
      between survives in the trade queue, whose removal names what was read; in the order
      set, whose removal deletes the key, it survives not at all. */
  lemma AddedDuringDrain(s: State, c: nat, d: nat, m: string, score: int)
    requires Inv(s) && c < |s.clients| && d < |s.clients| && s.clients[c].Fetched? && s.clients[d].Idle?
    requires m !in s.key
    ensures var s' := Next(Next(Next(Next(s, LockExpires), AcquireAdd(d, m, score)), AddMember(d)), Remove(c));
            && m in Held(s'.history) && m !in s.clients[c].data
            && (m in s'.key <==> s.kind.Trades?)
  {
    var data, h := s.clients[c].data, s.history;
    var s2 := Next(Next(s, LockExpires), AcquireAdd(d, m, score));
    assert s2.clients == s.clients[d := Adding(m, score)];
    var s3 := Next(s2, AddMember(d));
    assert s3.clients[c] == s.clients[c] && s3.history == h + [Add(m, score)];
    HeldMore(h, Add(m, score));
    assert s.lock == Some(c) && InFlight(s) == {};
    assert TakesAll(s, data) && m !in Members(data);
  }

  // ---------------------------------------------------------------- one client by itself

  /** One of the two keys as a single client sees it. Each operation is one locked section,
      and its contract the machine's run of that section. */
  class RedisOperations {
    const kind: Kind
    var key: map<string, int>
    var published: seq<string>
    ghost var history: seq<Event>

    ghost function Snapshot(): State
      reads this
    {
      State(kind, key, None, [Idle], history)
    }

    constructor (kind: Kind)
      ensures Snapshot() == Start(kind, 1) && Inv(Snapshot()) && published == []
    {
      this.kind, key, published, history := kind, map[], [], [];
    }

    /** What a section that adds one member does. */
    ghost predicate Adds(was: State, member: string, score: int)
      reads this
    {
      Snapshot() == Run(was, [AcquireAdd(0, member, score), AddMember(0), Release(0)])
    }

    /** What a section that drains the key does. */
    ghost predicate Drains(was: State, data: seq<string>)
      reads this
    {
      Snapshot() == Run(was, [AcquireDrain(0), Fetch(0, data), Remove(0), Release(0)])
    }

    /** `set_orders`; a set keeps no scores. */
    method SetOrders(value: string)
      requires kind.Orders? && Inv(Snapshot())
      modifies this`key, this`history
      ensures Adds(old(Snapshot()), value, 0) && Inv(Snapshot())
      ensures key == old(key)[value := 0] && value in Held(history)
    {
      AddSection(Snapshot(), value, 0);
      key := key[value := 0];
      history := history + [Add(value, 0)];
    }

    /** `set_publish_trades`. */
    method SetPublishTrades(value: string, timestamp: int)
      requires kind.Trades? && Inv(Snapshot())
      modifies this`key, this`published, this`history
      ensures Adds(old(Snapshot()), value, timestamp) && Inv(Snapshot())
      ensures key == old(key)[value := timestamp] && value in Held(history)
      ensures published == old(published) + [value]
    {
      AddSection(Snapshot(), value, timestamp);
      key := key[value := timestamp];
      history := history + [Add(value, timestamp)];
      published := published + [value];
    }

    /** `get_orders_and_delete`, for any order in which the server lists the set: everything
        added and not drained before, each member once. */
    method GetOrdersAndDelete(reply: seq<string>) returns (data: seq<string>)
      requires kind.Orders? && Inv(Snapshot()) && Reply(Snapshot(), reply)
      modifies this`key, this`history
      ensures Drains(old(Snapshot()), data) && Inv(Snapshot())
      ensures Members(data) == old(Held(history)).Keys && NoRepeats(data)
      ensures data == reply && Members(data) == old(key).Keys && key == map[]
    {
      DrainSection(Snapshot(), reply);
      data := reply;
      key := map[];
      history := history + [Drain(data)];
    }

    /** `get_trades`: `zrange 0 -1`, then `zrem` of what came, if anything came. */
    method GetTrades(reply: seq<string>) returns (data: seq<string>)
      requires kind.Trades? && Inv(Snapshot()) && Reply(Snapshot(), reply)
      modifies this`key, this`history
      ensures Drains(old(Snapshot()), data) && Inv(Snapshot())
      ensures Members(data) == old(Held(history)).Keys && NoRepeats(data) && ByScore(data, old(Held(history)))
      ensures data == reply && Members(data) == old(key).Keys && key == map[]
    {
      DrainSection(Snapshot(), reply);
      data := reply;
      if data != [] {
        key := key - Members(data);
      }
      history := history + [Drain(data)];
    }
  }

  lemma RunThree(s: State, a: Action, b: Action, c: Action)
    ensures Run(s, [a, b, c]) == Next(Next(Next(s, a), b), c)
  {
    hide Next;
    assert [a, b, c][1..] == [b, c] && [b, c][1..] == [c] && [c][1..] == [];
    assert Run(Next(Next(Next(s, a), b), c), []) == Next(Next(Next(s, a), b), c);
    assert Run(Next(Next(s, a), b), [c]) == Next(Next(Next(s, a), b), c);
  }

  lemma RunFour(s: State, a: Action, b: Action, c: Action, d: Action)
    ensures Run(s, [a, b, c, d]) == Next(Next(Next(Next(s, a), b), c), d)
  {
    hide Next;
    assert [a, b, c, d][1..] == [b, c, d];
    RunThree(Next(s, a), b, c, d);
  }

  ghost predicate Alone(s: State) {
    Inv(s) && s.lock.None? && s.clients == [Idle]
  }

  /** An undisturbed section that adds a member. */
  lemma AddSection(s: State, member: string, score: int)
    requires Alone(s)
    ensures var s' := Run(s, [AcquireAdd(0, member, score), AddMember(0), Release(0)]);
            && s' == s.(key := s.key[member := score], history := s.history + [Add(member, score)])
            && Inv(s')
  {
    AddSteps(s, 0, member, score);
    hide *;
    var s1 := Next(s, AcquireAdd(0, member, score));
    var s2 := Next(s1, AddMember(0));
    RunThree(s, AcquireAdd(0, member, score), AddMember(0), Release(0));
    SectionStep(s, AcquireAdd(0, member, score));
    SectionStep(s1, AddMember(0));
    SectionStep(s2, Release(0));
  }

  lemma SectionStep(s: State, a: Action)
    requires Inv(s) && !a.LockExpires? && !a.KeyExpires?
    ensures Inv(Next(s, a))
  {
    hide Inv, Next;
    StepKeepsInv(s, a);
  }

  /** Whatever the other clients are about, a section that finds the lock free adds its member
      with its score and leaves everything else as it was. */
  lemma AddSteps(s: State, c: nat, member: string, score: int)
    requires s.lock.None? && c < |s.clients| && s.clients[c].Idle?
    ensures Next(Next(Next(s, AcquireAdd(c, member, score)), AddMember(c)), Release(c)) ==
            s.(key := s.key[member := score], history := s.history + [Add(member, score)])
  {
    var s1 := Next(s, AcquireAdd(c, member, score));
    assert s1 == s.(clients := s.clients[c := Adding(member, score)], lock := Some(c));
    var s2 := Next(s1, AddMember(c));
    assert s2 == s1.(key := s.key[member := score], history := s.history + [Add(member, score)],
                     clients := s.clients[c := Added]);
    assert s.clients[c := Idle] == s.clients;
  }

  lemma KeyIsHeld(s: State)
    requires Alone(s)
    ensures s.key == Held(s.history)
  {
    hide Held, ExactDrains, InScoreOrder;
  }

  /** An undisturbed section that drains the key. */
  lemma DrainSection(s: State, data: seq<string>)
    requires Alone(s) && Reply(s, data)
    ensures var s' := Run(s, [AcquireDrain(0), Fetch(0, data), Remove(0), Release(0)]);
            s' == s.(key := map[], history := s.history + [Drain(data)]) && Inv(s')
    ensures s.key == Held(s.history) && s.key - Members(data) == map[] && (data == [] ==> s.key == map[])
  {
    hide Held, ExactDrains, InScoreOrder, Next, Run, Reply, Members;
    KeyIsHeld(s);
    DrainSteps(s, 0, data);
    hide *;
    RunFour(s, AcquireDrain(0), Fetch(0, data), Remove(0), Release(0));
    var s1 := Next(s, AcquireDrain(0));
    var s2 := Next(s1, Fetch(0, data));
    SectionStep(s, AcquireDrain(0));
    SectionStep(s1, Fetch(0, data));
    SectionStep(s2, Remove(0));
    SectionStep(Next(s2, Remove(0)), Release(0));
  }

  /** One that drains returns all members and leaves an empty key, and nothing else changes. */
  lemma DrainSteps(s: State, c: nat, data: seq<string>)
    requires s.lock.None? && c < |s.clients| && s.clients[c].Idle? && Reply(s, data)
    ensures Next(Next(Next(Next(s, AcquireDrain(c)), Fetch(c, data)), Remove(c)), Release(c)) ==
            s.(key := map[], history := s.history + [Drain(data)])
    ensures s.key - Members(data) == map[] && (data == [] ==> s.key == map[])
  {
    var s1 := Next(s, AcquireDrain(c));
    assert s1 == s.(clients := s.clients[c := Draining], lock := Some(c));
    assert Reply(s1, data);
    var s2 := Next(s1, Fetch(c, data));
    assert s2 == s1.(clients := s.clients[c := Fetched(data)]);
    hide Reply;
    var s3 := Next(s2, Remove(c));
    assert s3 == s2.(key := map[], clients := s.clients[c := Removed(data)]);
    assert s.clients[c := Idle] == s.clients;
  }

  /** While a client holds the lock no other begins, and one that has lost its lock does not
      release it; a client that fails before its removal leaves the key and the ledger as they
      are, and the lock free. */
  lemma LockedOut(s: State, c: nat, a: Action)
    requires c < |s.clients| && s.lock == Some(c)
    ensures a.AcquireAdd? || a.AcquireDrain? ==> Next(s, a) == s
    ensures (a.Release? || a.Raise?) && a.c != c ==> Next(s, a).lock == Some(c)
    ensures !s.clients[c].Idle? && !s.clients[c].Removed? ==>
              Next(s, Raise(c)) == s.(lock := None, clients := s.clients[c := Idle])
  {
  }
}
