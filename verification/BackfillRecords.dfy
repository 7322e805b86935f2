/** What the backfilled records say of the trades they come from, read off the records
    alone, and which records the duplicate filter keeps. */
module BackfillRecords {
  import opened Numerals
  import opened Backfill
  import opened BackfillCoverage
  import Text

  // ---------------------------------------------------------------- reading a record

  /** The text names the id in digits before its first hyphen, and the symbol after it. */
  predicate Names(tradeId: string, id: nat, symbol: string) {
    && '-' in tradeId
    && var k := Text.First(tradeId, '-');
      AllDigits(tradeId[..k]) && Value(tradeId[..k]) == id && tradeId[k + 1..] == symbol
  }

  predicate Tells(r: Record, t: RawTrade) {
    && (r.side == "B" <==> t.isBuyer) && (r.side == "S" <==> !t.isBuyer)
    && (r.triggeredSource == "MAKER" <==> t.isMaker) && (r.triggeredSource == "TAKER" <==> !t.isMaker)
    && r.timestamp == t.time
    && Names(r.tradeId, t.id, t.symbol)
  }

  lemma HandleTells(t: RawTrade)
    ensures Tells(Handle(t), t)
  {
    var d, r := Decimal(t.id), Handle(t);
    assert r.tradeId == d + "-" + t.symbol;
    assert "B" != "S" && "MAKER" != "TAKER";
    hide Decimal, Names;
    ReadBack(t.id);
    NamesByHyphen(d, t.symbol);
  }

  lemma NamesByHyphen(d: string, symbol: string)
    requires AllDigits(d)
    ensures Names(d + "-" + symbol, Value(d), symbol)
  {
    var id := d + ['-'] + symbol;
    assert '-' !in d;
    Text.FirstOf(d, symbol, '-');
    hide Value, Text.First;
    assert id[|d|] == '-' && id[..|d|] == d && id[|d| + 1..] == symbol;
  }

  // ---------------------------------------------------------------- where records come from

  lemma {:induction false} KeptComesFrom(s: seq<RawTrade>, span: TimeSpan, r: Record)
    requires r in Kept(s, span)
    ensures exists t :: t in s && !AtEnds(t, span) && Tells(r, t)
  {
    if r in Keep(s[0], span) {
      HandleTells(s[0]);
      assert s[0] in s;
    } else {
      KeptComesFrom(s[1..], span, r);
    }
    hide Tells, Handle;
  }

  lemma {:induction false} FilterComesFrom(s: seq<Record>, seen: set<string>, r: Record)
    requires r in FirstOccurrences(s, seen)
    ensures r in s
  {
    if r != s[0] {
      FilterComesFrom(s[1..], if Key(s[0]) in seen then seen else seen + {Key(s[0])}, r);
    }
  }

  /** Some request was answered with the trade. */
  ghost predicate Answered(server: Server, t: RawTrade) {
    exists k: nat, cursor: int :: t in server(k, cursor)
  }

  lemma {:induction false} WalkComesFrom(
    server: Server, span: TimeSpan, outages: seq<bool>, cursor: int, k: nat, t: RawTrade)
    requires Bounded(server, span) && span.start <= cursor && t in Walk(server, span, outages, cursor, k)
    ensures Answered(server, t)
    decreases span.end - cursor
  {
    var page := server(k, cursor);
    if t !in page {
      WalkComesFrom(server, span, outages, Last(page), k + 1, t);
    }
  }

  /** Whatever the server answers, every record the pager returns tells of a trade that was
      in an answer and not at an end of the span. */
  lemma PagedRecordsTell(server: Server, span: TimeSpan, outages: seq<bool>, r: Record)
    requires Bounded(server, span) && r in Kept(Walk(server, span, outages, span.start, 0), span)
    ensures exists t :: Answered(server, t) && !AtEnds(t, span) && Tells(r, t)
  {
    var walk := Walk(server, span, outages, span.start, 0);
    KeptComesFrom(walk, span, r);
    var t :| t in walk && !AtEnds(t, span) && Tells(r, t);
    hide *;
    WalkComesFrom(server, span, outages, span.start, 0, t);
  }

  /** Every record of the backfill tells of a trade of the history, its side, its source, its
      time, its id and its symbol. */
  lemma RecordsTellTheirTrades(h: seq<RawTrade>, span: TimeSpan, limit: nat, outages: seq<bool>, r: Record)
    requires 0 < span.start && 0 < span.end && r in Backfilled(h, span, limit, outages)
    ensures exists t :: t in h && span.start < t.time < span.end && Tells(r, t)
  {
    var server := Pages(h, span, limit);
    FilterComesFrom(Kept(Walk(server, span, outages, span.start, 0), span), {}, r);
    var walk := Walk(server, span, outages, span.start, 0);
    hide Walk, Tells, Kept;
    KeptComesFrom(walk, span, r);
    var t :| t in walk && !AtEnds(t, span) && Tells(r, t);
    PagesComeFrom(h, span, limit, outages, span.start, 0, t);
  }

  lemma {:induction false} PagesComeFrom(
    h: seq<RawTrade>, span: TimeSpan, limit: nat, outages: seq<bool>, cursor: int, k: nat, t: RawTrade)
    requires 0 < span.start <= cursor && 0 < span.end
    requires t in Walk(Pages(h, span, limit), span, outages, cursor, k)
    ensures t in h && span.start <= t.time <= span.end
    decreases span.end - cursor
  {
    var page := Page(h, cursor, span.end, limit);
    assert Pages(h, span, limit)(k, cursor) == page;
    if t in page {
      assert t in Within(h, cursor, span.end);
    } else {
      PagesComeFrom(h, span, limit, outages, Last(page), k + 1, t);
    }
    hide Page, Within;
  }

  /** Once a request fails nothing that a later one might be answered with matters. */
  lemma {:induction false} FailureEndsTheWalk(
    server: Server, other: Server, span: TimeSpan, outages: seq<bool>, cursor: int, k: nat, failed: nat)
    requires Bounded(server, span) && Bounded(other, span) && span.start <= cursor
    requires k <= failed < |outages| && outages[failed]
    requires forall i: nat, c: int :: i < failed ==> server(i, c) == other(i, c)
    ensures Walk(server, span, outages, cursor, k) == Walk(other, span, outages, cursor, k)
    decreases failed - k
  {
    var page := server(k, cursor);
    if k < failed && !Fails(outages, k) && !Stuck(page, cursor) {
      FailureEndsTheWalk(server, other, span, outages, Last(page), k + 1, failed);
    }
  }

  /** With no failing request the walk is the one of a list that names none. */
  lemma {:induction false} NoFailureIsNone(
    server: Server, span: TimeSpan, outages: seq<bool>, cursor: int, k: nat)
    requires Bounded(server, span) && span.start <= cursor
    requires forall i :: 0 <= i < |outages| ==> !outages[i]
    ensures Walk(server, span, outages, cursor, k) == Walk(server, span, [], cursor, k)
    decreases span.end - cursor
  {
    var page := server(k, cursor);
    if !Stuck(page, cursor) {
      NoFailureIsNone(server, span, outages, Last(page), k + 1);
    }
  }

  // ---------------------------------------------------------------- what the filter keeps

  ghost predicate NewKey(s: seq<Record>, r: Record) {
    forall i :: 0 <= i < |s| ==> s[i].tradeId + s[i].side != r.tradeId + r.side
  }

  /** The records whose key no earlier record has, in their order. */
  ghost function Firsts(s: seq<Record>): seq<Record> {
    if s == [] then []
    else
      var before, r := s[..|s| - 1], s[|s| - 1];
      Firsts(before) + if NewKey(before, r) then [r] else []
  }

  lemma {:induction false} FilterOneMore(s: seq<Record>, r: Record, seen: set<string>)
    ensures FirstOccurrences(s + [r], seen) ==
            FirstOccurrences(s, seen) + if Key(r) !in seen && NewKey(s, r) then [r] else []
  {
    if s == [] {
      assert s + [r] == [r] && [r][1..] == [];
    } else {
      assert (s + [r])[1..] == s[1..] + [r];
      var seen' := if Key(s[0]) in seen then seen else seen + {Key(s[0])};
      FilterOneMore(s[1..], r, seen');
      NewKeyCons(s, r);
      var more := if Key(r) !in seen && NewKey(s, r) then [r] else [];
      assert [s[0]] + (FirstOccurrences(s[1..], seen') + more) == ([s[0]] + FirstOccurrences(s[1..], seen')) + more;
    }
  }

  lemma NewKeyCons(s: seq<Record>, r: Record)
    requires s != []
    ensures NewKey(s, r) <==> Key(s[0]) != Key(r) && NewKey(s[1..], r)
  {
    assert forall i :: 0 < i < |s| ==> s[i] == s[1..][i - 1];
    assert forall i :: 0 <= i < |s| - 1 ==> s[1..][i] == s[i + 1];
  }

  /** The filter keeps exactly the records whose key is new, in their order. */
  lemma {:induction false} FilterKeepsFirsts(s: seq<Record>)
    ensures FirstOccurrences(s, {}) == Firsts(s)
  {
    if s != [] {
      var before, r := s[..|s| - 1], s[|s| - 1];
      assert s == before + [r];
      FilterKeepsFirsts(before);
      FilterOneMore(before, r, {});
    }
  }
}
