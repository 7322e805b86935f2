/** The backfill of trades missed while a stream was down: `get_binance_trade` walks a
    server that answers at most `limit` trades per request, and `filter_duplicate_trade`
    removes what overlapping pages return twice. */
module Backfill {
  import opened Numerals

  // ---------------------------------------------------------------- trades and records

  /** A trade as the exchange reports it (the fields that steer the code). */
  datatype RawTrade = RawTrade(id: nat, symbol: string, isBuyer: bool, isMaker: bool, time: int)

  datatype Record = Record(tradeId: string, side: string, triggeredSource: string, timestamp: int)

  datatype TimeSpan = TimeSpan(start: int, end: int)

  /** `handle_restful_trade_data`. */
  function Handle(t: RawTrade): Record {
    Record(Decimal(t.id) + "-" + t.symbol,
           if t.isBuyer then "B" else "S",
           if t.isMaker then "MAKER" else "TAKER",
           t.time)
  }

  /** What `filter_duplicate_trade` compares. */
  function Key(r: Record): string {
    r.tradeId + r.side
  }

  /** Within one symbol the key is as good as the pair of trade id and side. */
  lemma KeyIdentifies(a: RawTrade, b: RawTrade)
    requires a.symbol == b.symbol && Key(Handle(a)) == Key(Handle(b))
    ensures a.id == b.id && a.isBuyer == b.isBuyer
  {
    var ka, kb := Key(Handle(a)), Key(Handle(b));
    assert ka[|ka| - 1] == kb[|kb| - 1];
    assert |Decimal(a.id)| == |Decimal(b.id)|;
    assert Decimal(a.id) == ka[..|Decimal(a.id)|] == kb[..|Decimal(b.id)|] == Decimal(b.id);
    DecimalInjective(a.id, b.id);
  }

  ghost predicate Sorted(h: seq<RawTrade>) {
    forall i, j :: 0 <= i < j < |h| ==> h[i].time <= h[j].time
  }

  /** One symbol's trades, told apart by id and side: a trade with oneself has one id and
      appears once on each side. */
  ghost predicate OneSymbol(h: seq<RawTrade>) {
    && (forall i, j :: 0 <= i < |h| && 0 <= j < |h| ==> h[i].symbol == h[j].symbol)
    && forall i, j :: 0 <= i < j < |h| ==> h[i].id != h[j].id || h[i].isBuyer != h[j].isBuyer
  }

  // ---------------------------------------------------------------- the server

  /** The client leaves a bound out of the request when it is zero. */
  predicate Asked(t: RawTrade, start: int, end: int) {
    (start == 0 || start <= t.time) && (end == 0 || t.time <= end)
  }

  function Within(h: seq<RawTrade>, start: int, end: int): (w: seq<RawTrade>)
    ensures forall i :: 0 <= i < |w| ==> Asked(w[i], start, end) && w[i] in h
  {
    if h == [] then []
    else (if Asked(h[0], start, end) then [h[0]] else []) + Within(h[1..], start, end)
  }

  function Min(a: nat, b: nat): nat {
    if a < b then a else b
  }

  /** The answer to one request: the first `limit` trades asked for. */
  function Page(h: seq<RawTrade>, start: int, end: int, limit: nat): seq<RawTrade> {
    var w := Within(h, start, end);
    w[..Min(limit, |w|)]
  }

  /** What the k-th request is answered with, from a cursor on; the end is the span's. */
  type Server = (nat, int) -> seq<RawTrade>

  /** No answer ends outside what was asked for. */
  ghost predicate Bounded(server: Server, span: TimeSpan) {
    forall k: nat, cursor: int :: span.start <= cursor && server(k, cursor) != [] ==>
      cursor <= Last(server(k, cursor)) <= span.end
  }

  /** The time of the last trade. */
  function Last(page: seq<RawTrade>): int
    requires page != []
  {
    page[|page| - 1].time
  }

  /** A server that answers from one history. */
  function Pages(h: seq<RawTrade>, span: TimeSpan, limit: nat): (server: Server)
    requires 0 < span.start && 0 < span.end
    ensures Bounded(server, span)
  {
    (k: nat, cursor: int) => Page(h, cursor, span.end, limit)
  }

  /** Whether the k-th request fails: an exception, or an error object in place of a page. */
  predicate Fails(outages: seq<bool>, k: nat) {
    k < |outages| && outages[k]
  }

  // ---------------------------------------------------------------- the pager

  /** The loop's `if timestamp in [time_span.start, time_span.end]: continue`. */
  function Keep(t: RawTrade, span: TimeSpan): seq<Record> {
    if t.time == span.start || t.time == span.end then [] else [Handle(t)]
  }

  function Kept(s: seq<RawTrade>, span: TimeSpan): seq<Record> {
    if s == [] then [] else Keep(s[0], span) + Kept(s[1..], span)
  }

  lemma {:induction false} KeptConcat(a: seq<RawTrade>, b: seq<RawTrade>, span: TimeSpan)
    ensures Kept(a + b, span) == Kept(a, span) + Kept(b, span)
  {
    hide Kept, Keep;
    if a == [] {
      assert a + b == b;
      KeptNone(span);
    } else {
      var t, rest := a[0], a[1..];
      KeptConcat(rest, b, span);
      KeptCons(t, rest, span);
      KeptCons(t, rest + b, span);
      assert [t] + rest == a && [t] + (rest + b) == a + b;
      Associate(Keep(t, span), Kept(rest, span), Kept(b, span));
    }
  }

  lemma Associate(x: seq<Record>, y: seq<Record>, z: seq<Record>)
    ensures x + (y + z) == (x + y) + z
  {
  }

  lemma KeptCons(t: RawTrade, s: seq<RawTrade>, span: TimeSpan)
    ensures Kept([t] + s, span) == Keep(t, span) + Kept(s, span)
  {
    assert ([t] + s)[1..] == s;
  }

  lemma KeptNone(span: TimeSpan)
    ensures Kept([], span) == []
  {
  }

  lemma KeptSnoc(s: seq<RawTrade>, k: nat, span: TimeSpan)
    requires k < |s|
    ensures Kept(s[..k + 1], span) == Kept(s[..k], span) + Keep(s[k], span)
  {
    assert s[..k + 1] == s[..k] + [s[k]];
    KeptConcat(s[..k], [s[k]], span);
  }

  /** The loop's exit: an empty page, or one that ends at the cursor it started from. */
  predicate Stuck(page: seq<RawTrade>, cursor: int) {
    page == [] || Last(page) == cursor
  }

  /** A page that starts at the cursor repeats the last trade of the page before. */
  function Fresh(page: seq<RawTrade>, cursor: int): seq<RawTrade> {
    if page != [] && page[0].time == cursor then page[1..] else page
  }

  /** The trades the loop goes through from cursor `start_tmp` on, starting with request k. */
  function Walk(server: Server, span: TimeSpan, outages: seq<bool>, cursor: int, k: nat): seq<RawTrade>
    requires Bounded(server, span) && span.start <= cursor
    decreases span.end - cursor
  {
    var page := server(k, cursor);
    if Fails(outages, k) || Stuck(page, cursor) then []
    else Fresh(page, cursor) + Walk(server, span, outages, Last(page), k + 1)
  }

  /** What the loop has gone through and what it will go through make up the walk. */
  ghost predicate OnTheWay(server: Server, span: TimeSpan, outages: seq<bool>,
                           done: seq<RawTrade>, cursor: int, k: nat)
    requires Bounded(server, span)
  {
    && span.start <= cursor
    && done + Walk(server, span, outages, cursor, k) == Walk(server, span, outages, span.start, 0)
  }

  lemma WalkTurn(server: Server, span: TimeSpan, outages: seq<bool>, done: seq<RawTrade>, cursor: int, k: nat)
    requires Bounded(server, span) && OnTheWay(server, span, outages, done, cursor, k)
    ensures var page := server(k, cursor);
            if Fails(outages, k) || Stuck(page, cursor) then
              done == Walk(server, span, outages, span.start, 0)
            else
              && cursor < Last(page) <= span.end
              && |Fresh(page, cursor)| > 0 && Last(Fresh(page, cursor)) == Last(page)
              && OnTheWay(server, span, outages, done + Fresh(page, cursor), Last(page), k + 1)
  {
    var page := server(k, cursor);
    if Fails(outages, k) || Stuck(page, cursor) {
      assert done + [] == done;
    } else {
      var later := Walk(server, span, outages, Last(page), k + 1);
      assert done + (Fresh(page, cursor) + later) == (done + Fresh(page, cursor)) + later;
    }
  }

  /** `get_binance_trade`, whatever the requests are answered with inside their bounds. */
  method GetBinanceTrade(server: Server, span: TimeSpan, outages: seq<bool>) returns (result: seq<Record>)
    requires Bounded(server, span)
    ensures result == Kept(Walk(server, span, outages, span.start, 0), span)
  {
    hide Walk, Kept, Handle, Bounded;
    var startTmp, endTmp, k := span.start, span.end, 0;
    result := [];
    ghost var done := [];
    KeptNone(span);
    assert done + Walk(server, span, outages, startTmp, k) == Walk(server, span, outages, startTmp, k);
    while true
      invariant OnTheWay(server, span, outages, done, startTmp, k)
      invariant result == Kept(done, span)
      decreases endTmp - startTmp
    {
      WalkTurn(server, span, outages, done, startTmp, k);
      if Fails(outages, k) {
        break;
      }
      var tradeRes := server(k, startTmp);
      k := k + 1;
      if tradeRes == [] || tradeRes[|tradeRes| - 1].time == startTmp {
        break;
      }
      if tradeRes[0].time == startTmp {
        tradeRes := tradeRes[1..];
      }
      startTmp := tradeRes[|tradeRes| - 1].time;
      ghost var before := result;
      for i := 0 to |tradeRes|
        invariant result == before + Kept(tradeRes[..i], span)
      {
        var res := Handle(tradeRes[i]);
        KeptSnoc(tradeRes, i, span);
        if tradeRes[i].time == span.start || tradeRes[i].time == span.end {
          continue;
        }
        result := result + [res];
      }
      assert tradeRes[..|tradeRes|] == tradeRes;
      KeptConcat(done, tradeRes, span);
      done := done + tradeRes;
    }
  }

  // ---------------------------------------------------------------- the duplicate filter

  function Keys(s: seq<Record>): set<string> {
    set r | r in s :: Key(r)
  }

  /** The records whose key is in `seen` or came before are dropped. */
  function FirstOccurrences(s: seq<Record>, seen: set<string>): seq<Record> {
    if s == [] then []
    else if Key(s[0]) in seen then FirstOccurrences(s[1..], seen)
    else [s[0]] + FirstOccurrences(s[1..], seen + {Key(s[0])})
  }

  /** `filter_duplicate_trade` on a list. */
  method FilterDuplicateTrade(trade: seq<Record>) returns (result: seq<Record>)
    ensures result == FirstOccurrences(trade, {})
  {
    var tradeSideList: seq<string> := [];
    result := [];
    ghost var seen: set<string> := {};
    for k := 0 to |trade|
      invariant forall key :: key in tradeSideList <==> key in seen
      invariant result + FirstOccurrences(trade[k..], seen) == FirstOccurrences(trade, {})
    {
      var i := trade[k];
      var tradeIdSide := i.tradeId + i.side;
      assert trade[k..][1..] == trade[k + 1..];
      if tradeIdSide in tradeSideList {
        continue;
      }
      ghost var later := FirstOccurrences(trade[k + 1..], seen + {tradeIdSide});
      assert result + ([i] + later) == (result + [i]) + later;
      result := result + [i];
      tradeSideList := tradeSideList + [tradeIdSide];
      seen := seen + {tradeIdSide};
    }
  }

  predicate DistinctKeys(s: seq<Record>) {
    forall i, j :: 0 <= i < j < |s| ==> Key(s[i]) != Key(s[j])
  }

  /** What is left has every key once and no key is lost. */
  lemma {:induction false} FirstOccurrencesKeys(s: seq<Record>, seen: set<string>)
    ensures Keys(FirstOccurrences(s, seen)) == Keys(s) - seen
    ensures DistinctKeys(FirstOccurrences(s, seen))
  {
    if s != [] {
      var f := FirstOccurrences(s, seen);
      assert Keys(s) == {Key(s[0])} + Keys(s[1..]) by {
        assert forall r :: r in s <==> r == s[0] || r in s[1..];
      }
      if Key(s[0]) in seen {
        FirstOccurrencesKeys(s[1..], seen);
        assert Keys(s) - seen == Keys(s[1..]) - seen;
      } else {
        FirstOccurrencesKeys(s[1..], seen + {Key(s[0])});
        assert Keys(f) == {Key(s[0])} + Keys(f[1..]) by {
          assert forall r :: r in f <==> r == s[0] || r in f[1..];
        }
        assert f[1..] == FirstOccurrences(s[1..], seen + {Key(s[0])});
        forall i | 1 <= i < |f| ensures Key(f[i]) != Key(f[0]) {
          assert f[i] in f[1..];
        }
        forall i, j | 1 <= i < j < |f| ensures Key(f[i]) != Key(f[j]) {
          assert f[i] == f[1..][i - 1] && f[j] == f[1..][j - 1];
        }
      }
    }
  }
}
