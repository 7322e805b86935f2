/** Which trades the backfill returns. The walk over pages is reduced to arithmetic on the
    sorted window; then: what is collected, when that is everything, and what can be lost. */
module BackfillCoverage {
  import opened Backfill

  // ---------------------------------------------------------------- the window

  /** The result the backfill is for: every trade strictly inside the span, in order. */
  function Expected(h: seq<RawTrade>, span: TimeSpan): seq<Record> {
    if h == [] then []
    else (if span.start < h[0].time < span.end then [Handle(h[0])] else []) + Expected(h[1..], span)
  }

  lemma {:induction false} ExpectedIsKept(h: seq<RawTrade>, span: TimeSpan)
    requires 0 < span.start && 0 < span.end
    ensures Expected(h, span) == Kept(Within(h, span.start, span.end), span)
  {
    if h != [] {
      hide Handle;
      ExpectedIsKept(h[1..], span);
      var head := if Asked(h[0], span.start, span.end) then [h[0]] else [];
      KeptConcat(head, Within(h[1..], span.start, span.end), span);
      if head != [] {
        KeptOne(h[0], span);
      }
    }
  }

  lemma KeptOne(t: RawTrade, span: TimeSpan)
    ensures Kept([t], span) == Keep(t, span)
  {
    assert [t][1..] == [];
  }

  lemma {:induction false} WithinWellOrdered(h: seq<RawTrade>, start: int, end: int)
    requires Sorted(h) && OneSymbol(h)
    ensures Sorted(Within(h, start, end)) && OneSymbol(Within(h, start, end))
  {
    if h != [] {
      hide Asked, Before;
      var v := Within(h[1..], start, end);
      TailWellOrdered(h);
      hide Sorted, OneSymbol;
      WithinWellOrdered(h[1..], start, end);
      FirstIsBefore(h, v);
      WellOrderedCons(h[0], v);
      assert Within(h, start, end) == [h[0]] + v || Within(h, start, end) == v;
    }
  }

  lemma TailWellOrdered(h: seq<RawTrade>)
    requires Sorted(h) && OneSymbol(h) && h != []
    ensures Sorted(h[1..]) && OneSymbol(h[1..])
  {
    var s := h[1..];
    assert forall i :: 0 <= i < |s| ==> s[i] == h[i + 1];
  }

  lemma FirstIsBefore(h: seq<RawTrade>, v: seq<RawTrade>)
    requires Sorted(h) && OneSymbol(h) && h != [] && forall i :: 0 <= i < |v| ==> v[i] in h[1..]
    ensures forall i :: 0 <= i < |v| ==> Before(h[0], v[i])
  {
    forall i | 0 <= i < |v| ensures Before(h[0], v[i]) {
      var j :| 0 <= j < |h[1..]| && h[1..][j] == v[i];
      assert h[j + 1] == v[i];
    }
  }

  ghost predicate Before(a: RawTrade, b: RawTrade) {
    a.time <= b.time && a.symbol == b.symbol && (a.id != b.id || a.isBuyer != b.isBuyer)
  }

  lemma WellOrderedCons(t: RawTrade, v: seq<RawTrade>)
    requires Sorted(v) && OneSymbol(v)
    requires forall i :: 0 <= i < |v| ==> Before(t, v[i])
    ensures Sorted([t] + v) && OneSymbol([t] + v)
  {
    var s := [t] + v;
    forall i, j | 0 <= i < j < |s| ensures Before(s[i], s[j]) {
      assert s[j] == v[j - 1];
      if i > 0 {
        assert s[i] == v[i - 1];
      }
    }
  }

  /** The first index whose time is not before T. */
  function First(w: seq<RawTrade>, T: int): (g: nat)
    ensures g <= |w|
    ensures forall i :: 0 <= i < g ==> w[i].time < T
    ensures g < |w| ==> T <= w[g].time
  {
    if w == [] || T <= w[0].time then 0 else 1 + First(w[1..], T)
  }

  lemma {:induction false} FirstMonotone(w: seq<RawTrade>, T: int, T': int)
    requires T <= T'
    ensures First(w, T) <= First(w, T')
  {
    if w != [] {
      FirstMonotone(w[1..], T, T');
    }
  }

  lemma {:induction false} WithinAgain(h: seq<RawTrade>, start: int, T: int, end: int)
    requires 0 < start <= T && 0 < end
    ensures Within(h, T, end) == Within(Within(h, start, end), T, end)
  {
    if h != [] {
      WithinAgain(h[1..], start, T, end);
      var v := Within(h[1..], start, end);
      assert ([h[0]] + v)[1..] == v && [] + v == v;
    }
  }

  lemma {:induction false} WithinSuffix(w: seq<RawTrade>, T: int, end: int)
    requires 0 < T && 0 < end && Sorted(w)
    requires forall i :: 0 <= i < |w| ==> w[i].time <= end
    ensures Within(w, T, end) == w[First(w, T)..]
  {
    if w != [] {
      WithinSuffix(w[1..], T, end);
      if T <= w[0].time {
        assert First(w[1..], T) == 0;
      }
    }
  }

  /** A page is a slice of the window. */
  lemma PageIsSlice(h: seq<RawTrade>, span: TimeSpan, T: int, limit: nat)
    requires 0 < span.start <= T && 0 < span.end
    requires Sorted(Within(h, span.start, span.end))
    ensures var w := Within(h, span.start, span.end); var g := First(w, T);
            Page(h, T, span.end, limit) == w[g..Min(g + limit, |w|)]
  {
    hide Within, First, Sorted;
    WithinAgain(h, span.start, T, span.end);
    WithinSuffix(Within(h, span.start, span.end), T, span.end);
  }

  // ---------------------------------------------------------------- the duplicate filter

  lemma {:induction false} FirstOccurrencesConcat(x: seq<Record>, y: seq<Record>, seen: set<string>)
    ensures FirstOccurrences(x + y, seen) == FirstOccurrences(x, seen) + FirstOccurrences(y, seen + Keys(x))
  {
    hide Key;
    if x == [] {
      assert x + y == y && seen + Keys(x) == seen;
    } else {
      assert (x + y)[1..] == x[1..] + y;
      assert Keys(x) == {Key(x[0])} + Keys(x[1..]) by {
        assert forall r :: r in x <==> r == x[0] || r in x[1..];
      }
      if Key(x[0]) in seen {
        FirstOccurrencesConcat(x[1..], y, seen);
        assert seen + Keys(x) == seen + Keys(x[1..]);
      } else {
        FirstOccurrencesConcat(x[1..], y, seen + {Key(x[0])});
        assert seen + Keys(x) == seen + {Key(x[0])} + Keys(x[1..]);
      }
    }
  }

  lemma {:induction false} FirstOccurrencesSeen(y: seq<Record>, seen: set<string>)
    requires Keys(y) <= seen
    ensures FirstOccurrences(y, seen) == []
  {
    if y != [] {
      assert Key(y[0]) in Keys(y);
      FirstOccurrencesSeen(y[1..], seen);
    }
  }

  lemma {:induction false} FirstOccurrencesFresh(y: seq<Record>, seen: set<string>)
    requires DistinctKeys(y) && Keys(y) !! seen
    ensures FirstOccurrences(y, seen) == y
  {
    hide Key;
    if y != [] {
      assert Key(y[0]) in Keys(y);
      forall key | key in Keys(y[1..]) ensures key !in seen + {Key(y[0])} {
        var i :| 0 <= i < |y[1..]| && Key(y[1..][i]) == key;
        assert y[i + 1] in y;
      }
      FirstOccurrencesFresh(y[1..], seen + {Key(y[0])});
    }
  }

  lemma {:induction false} KeptKeysDistinct(w: seq<RawTrade>, span: TimeSpan)
    requires OneSymbol(w)
    ensures DistinctKeys(Kept(w, span))
    ensures forall r :: r in Kept(w, span) ==> exists t :: t in w && r == Handle(t)
  {
    hide Key, Handle;
    if w != [] {
      KeptKeysDistinct(w[1..], span);
      var v := Kept(w[1..], span);
      forall j | 0 <= j < |v| ensures Key(Handle(w[0])) != Key(v[j]) {
        assert v[j] in v;
        var t :| t in w[1..] && v[j] == Handle(t);
        var k :| 0 <= k < |w[1..]| && w[1..][k] == t;
        assert w[k + 1] == t;
        if Key(Handle(w[0])) == Key(Handle(t)) {
          KeyIdentifies(w[0], t);
        }
      }
    }
  }

  /** Going on with a slice that overlaps what was collected and then adds to it. */
  lemma CollectSlice(w: seq<RawTrade>, span: TimeSpan, done: seq<RawTrade>, a: nat, e: nat, e': nat)
    requires OneSymbol(w) && a <= e <= e' <= |w|
    requires FirstOccurrences(Kept(done, span), {}) == Kept(w[..e], span)
    ensures FirstOccurrences(Kept(done + w[a..e'], span), {}) == Kept(w[..e'], span)
  {
    hide FirstOccurrences, Kept, Keys;
    var old', again, new' := Kept(done, span), Kept(w[a..e], span), Kept(w[e..e'], span);
    assert done + w[a..e'] == done + w[a..e] + w[e..e'];
    KeptConcat(done + w[a..e], w[e..e'], span);
    KeptConcat(done, w[a..e], span);
    FirstOccurrencesConcat(old' + again, new', {});
    FirstOccurrencesConcat(old', again, {});
    FirstOccurrencesKeys(old', {});
    OverlapKeys(w, span, a, e, e');
    assert {} + Keys(old') == Keys(old');
    FirstOccurrencesSeen(again, Keys(old'));
    KeysConcat(old', again);
    assert {} + Keys(old' + again) == Keys(old');
    FirstOccurrencesFresh(new', Keys(old'));
    assert w[..e'] == w[..e] + w[e..e'];
    KeptConcat(w[..e], w[e..e'], span);
    assert Kept(w[..e], span) + [] == Kept(w[..e], span);
  }

  lemma KeysConcat(x: seq<Record>, y: seq<Record>)
    ensures Keys(x + y) == Keys(x) + Keys(y)
  {
  }

  lemma OverlapKeys(w: seq<RawTrade>, span: TimeSpan, a: nat, e: nat, e': nat)
    requires OneSymbol(w) && a <= e <= e' <= |w|
    ensures Keys(Kept(w[a..e], span)) <= Keys(Kept(w[..e], span))
    ensures Keys(Kept(w[e..e'], span)) !! Keys(Kept(w[..e], span))
    ensures DistinctKeys(Kept(w[e..e'], span))
  {
    hide Key, Handle, Kept;
    var x, y := Kept(w[..e], span), Kept(w[e..e'], span);
    assert w[..e] == w[..a] + w[a..e];
    KeptConcat(w[..a], w[a..e], span);
    KeysConcat(Kept(w[..a], span), Kept(w[a..e], span));
    assert w[..e'] == w[..e] + w[e..e'];
    KeptConcat(w[..e], w[e..e'], span);
    KeptKeysDistinct(w[..e'], span);
    KeptKeysDistinct(w[e..e'], span);
    forall i, j | 0 <= i < |x| && 0 <= j < |y| ensures Key(x[i]) != Key(y[j]) {
      assert (x + y)[i] == x[i] && (x + y)[|x| + j] == y[j];
    }
  }

  // ---------------------------------------------------------------- the walk as arithmetic

  /** Where the loop stops: its cursor, and how much of the window it has gone through. */
  datatype Stop = Stop(cursor: int, reached: nat)

  ghost predicate Window(w: seq<RawTrade>, span: TimeSpan) {
    Sorted(w) && forall i :: 0 <= i < |w| ==> span.start <= w[i].time <= span.end
  }

  /** The same walk on the window's timestamps alone: from cursor T, with `reached` trades
      gone through, a request covers `limit` trades from the first one at T. */
  ghost function StopAt(w: seq<RawTrade>, span: TimeSpan, limit: nat, outages: seq<bool>,
                        T: int, reached: nat, k: nat): (stop: Stop)
    requires Window(w, span)
    decreases span.end - T
  {
    var g := First(w, T);
    var e := Min(g + limit, |w|);
    if Fails(outages, k) || e == g || w[e - 1].time == T then Stop(T, reached)
    else StopAt(w, span, limit, outages, w[e - 1].time, e, k + 1)
  }

  /** The cursor is the time of the last trade gone through, or still the start. */
  ghost predicate AtCursor(w: seq<RawTrade>, span: TimeSpan, limit: nat, T: int, reached: nat) {
    && span.start <= T && reached <= |w| && reached <= First(w, T) + limit
    && (if reached == 0 then T == span.start else w[reached - 1].time == T)
  }

  lemma NextCursor(w: seq<RawTrade>, span: TimeSpan, limit: nat, T: int, reached: nat)
    requires Window(w, span) && AtCursor(w, span, limit, T, reached)
    ensures var g := First(w, T); var e := Min(g + limit, |w|);
            && g <= reached <= e
            && (e != g && w[e - 1].time != T ==>
                  T < w[e - 1].time <= span.end && AtCursor(w, span, limit, w[e - 1].time, e))
            && (g < |w| && w[g].time == T ==> g < reached || T == span.start)
  {
    hide First;
    var g := First(w, T);
    var e := Min(g + limit, |w|);
    assert g == 0 || w[0].time < T;
    if e != g && w[e - 1].time != T {
      assert w[g].time <= w[e - 1].time;
      FirstMonotone(w, T, w[e - 1].time);
    }
  }

  ghost function StopIn(h: seq<RawTrade>, span: TimeSpan, limit: nat, outages: seq<bool>,
                        T: int, reached: nat, k: nat): Stop
    requires Window(Within(h, span.start, span.end), span)
  {
    StopAt(Within(h, span.start, span.end), span, limit, outages, T, reached, k)
  }

  /** Filtering what the walk returns gives the window up to where the walk stopped. */
  lemma {:induction false} WalkCollects(h: seq<RawTrade>, span: TimeSpan, limit: nat, outages: seq<bool>,
                                        T: int, reached: nat, k: nat, done: seq<RawTrade>)
    requires 0 < span.start && 0 < span.end
    requires var w := Within(h, span.start, span.end);
             && Window(w, span) && OneSymbol(w) && AtCursor(w, span, limit, T, reached)
             && FirstOccurrences(Kept(done, span), {}) == Kept(w[..reached], span)
    requires span.start <= T
    ensures var w, stop := Within(h, span.start, span.end), StopIn(h, span, limit, outages, T, reached, k);
            && stop.reached <= |w|
            && FirstOccurrences(Kept(done + Walk(Pages(h, span, limit), span, outages, T, k), span), {})
                 == Kept(w[..stop.reached], span)
    decreases span.end - T
  {
    hide Kept, Within, FirstOccurrences, Page, Sorted, OneSymbol, First, Handle, Key, Walk, Fresh;
    var w := Within(h, span.start, span.end);
    assert Sorted(w) && span.start <= T && reached <= |w|;
    hide Window, AtCursor;
    var g := First(w, T);
    var e := Min(g + limit, |w|);
    var page := Page(h, T, span.end, limit);
    PageIsSlice(h, span, T, limit);
    NextCursor(w, span, limit, T, reached);
    WalkStep(h, span, limit, outages, T, k, done);
    if !(Fails(outages, k) || Stuck(page, T)) {
      CollectPage(w, span, done, T, g, reached, e);
      WalkCollects(h, span, limit, outages, w[e - 1].time, e, k + 1, done + Fresh(page, T));
    }
  }

  /** One request of the walk. */
  lemma WalkStep(h: seq<RawTrade>, span: TimeSpan, limit: nat, outages: seq<bool>, T: int, k: nat, done: seq<RawTrade>)
    requires 0 < span.start <= T && 0 < span.end
    ensures var page, server := Page(h, T, span.end, limit), Pages(h, span, limit);
            if Fails(outages, k) || Stuck(page, T) then done + Walk(server, span, outages, T, k) == done
            else
              && span.start <= Last(page)
              && done + Walk(server, span, outages, T, k) ==
                   (done + Fresh(page, T)) + Walk(server, span, outages, Last(page), k + 1)
  {
    var page, server := Page(h, T, span.end, limit), Pages(h, span, limit);
    assert server(k, T) == page;
    hide Page, Fresh, Pages;
    if !(Fails(outages, k) || Stuck(page, T)) {
      var later := Walk(server, span, outages, Last(page), k + 1);
      assert done + (Fresh(page, T) + later) == (done + Fresh(page, T)) + later;
    }
  }

  lemma CollectPage(w: seq<RawTrade>, span: TimeSpan, done: seq<RawTrade>, T: int, g: nat, reached: nat, e: nat)
    requires OneSymbol(w) && g <= reached <= e <= |w| && g < e
    requires FirstOccurrences(Kept(done, span), {}) == Kept(w[..reached], span)
    requires w[g].time == T ==> g < reached || T == span.start
    ensures FirstOccurrences(Kept(done + Fresh(w[g..e], T), span), {}) == Kept(w[..e], span)
  {
    hide FirstOccurrences;
    if w[g].time != T {
      CollectSlice(w, span, done, g, reached, e);
    } else {
      assert w[g..e][1..] == w[g + 1..e];
      if g < reached {
        CollectSlice(w, span, done, g + 1, reached, e);
      } else {
        assert w[..g + 1] == w[..g] + [w[g]];
        KeptConcat(w[..g], [w[g]], span);
        KeptOne(w[g], span);
        assert Kept(w[..g], span) + [] == Kept(w[..g], span);
        CollectSlice(w, span, done, g + 1, g + 1, e);
      }
    }
  }

  // ---------------------------------------------------------------- what the backfill returns

  /** What the caller ends up with: the pager's result, then the duplicate filter. */
  function Backfilled(h: seq<RawTrade>, span: TimeSpan, limit: nat, outages: seq<bool>): seq<Record>
    requires 0 < span.start && 0 < span.end
  {
    FirstOccurrences(Kept(Walk(Pages(h, span, limit), span, outages, span.start, 0), span), {})
  }

  /** The trades inside the span, however the requests are answered. */
  ghost predicate History(h: seq<RawTrade>, span: TimeSpan) {
    0 < span.start && 0 < span.end && Sorted(h) && OneSymbol(h)
  }

  lemma WindowOf(h: seq<RawTrade>, span: TimeSpan)
    requires History(h, span)
    ensures var w := Within(h, span.start, span.end); Window(w, span) && OneSymbol(w)
  {
    WithinWellOrdered(h, span.start, span.end);
  }

  ghost function StopOf(h: seq<RawTrade>, span: TimeSpan, limit: nat, outages: seq<bool>): Stop
    requires History(h, span)
  {
    WindowOf(h, span);
    StopIn(h, span, limit, outages, span.start, 0, 0)
  }

  /** The backfill returns exactly the window's trades up to where its walk stops, each
      once and in order, with any requests failing. */
  lemma BackfilledIsPrefix(h: seq<RawTrade>, span: TimeSpan, limit: nat, outages: seq<bool>)
    requires History(h, span)
    ensures var w, e := Within(h, span.start, span.end), StopOf(h, span, limit, outages).reached;
            e <= |w| && Backfilled(h, span, limit, outages) == Kept(w[..e], span)
  {
    WindowOf(h, span);
    var w := Within(h, span.start, span.end);
    assert w[..0] == [];
    KeptNone(span);
    var walk := Walk(Pages(h, span, limit), span, outages, span.start, 0);
    assert [] + walk == walk;
    WalkCollects(h, span, limit, outages, span.start, 0, 0, []);
  }

  /** A trade at one of the span's own ends is never wanted. */
  predicate AtEnds(t: RawTrade, span: TimeSpan) {
    t.time == span.start || t.time == span.end
  }

  lemma {:induction false} KeptEmpty(s: seq<RawTrade>, span: TimeSpan)
    ensures Kept(s, span) == [] <==> forall i :: 0 <= i < |s| ==> AtEnds(s[i], span)
  {
    if s != [] {
      KeptEmpty(s[1..], span);
      if forall i :: 0 <= i < |s[1..]| ==> AtEnds(s[1..][i], span) {
        assert forall i :: 1 <= i < |s| ==> s[i] == s[1..][i - 1];
      }
      if forall i :: 0 <= i < |s| ==> AtEnds(s[i], span) {
        assert forall i :: 0 <= i < |s[1..]| ==> s[1..][i] == s[i + 1];
      }
    }
  }

  /** Every trade from index e on is at one of the span's own ends. */
  ghost predicate NothingWantedFrom(w: seq<RawTrade>, e: nat, span: TimeSpan) {
    forall i :: e <= i < |w| ==> AtEnds(w[i], span)
  }

  /** Nothing is lost exactly when every trade of the window that the walk does not reach
      is at one of the span's own ends. */
  lemma CompleteExact(h: seq<RawTrade>, span: TimeSpan, limit: nat, outages: seq<bool>)
    requires History(h, span)
    ensures var w, e := Within(h, span.start, span.end), StopOf(h, span, limit, outages).reached;
            && e <= |w|
            && (Backfilled(h, span, limit, outages) == Expected(h, span) <==> NothingWantedFrom(w, e, span))
  {
    hide Kept, Within, FirstOccurrences, History, StopOf;
    BackfilledIsPrefix(h, span, limit, outages);
    var w, e := Within(h, span.start, span.end), StopOf(h, span, limit, outages).reached;
    ExpectedFromHistory(h, span);
    assert w == w[..e] + w[e..];
    KeptConcat(w[..e], w[e..], span);
    KeptEmpty(w[e..], span);
    var x, y := Kept(w[..e], span), Kept(w[e..], span);
    assert x == x + y <==> y == [] by {
      assert |x + y| == |x| + |y|;
    }
    if forall i :: 0 <= i < |w[e..]| ==> AtEnds(w[e..][i], span) {
      assert forall i :: e <= i < |w| ==> w[i] == w[e..][i - e];
    }
    if forall i :: e <= i < |w| ==> AtEnds(w[i], span) {
      assert forall i :: 0 <= i < |w[e..]| ==> w[e..][i] == w[i + e];
    }
  }

  lemma ExpectedFromHistory(h: seq<RawTrade>, span: TimeSpan)
    requires History(h, span)
    ensures Expected(h, span) == Kept(Within(h, span.start, span.end), span)
  {
    ExpectedIsKept(h, span);
  }

  // ---------------------------------------------------------------- where the walk stops

  ghost predicate StopsWhere(w: seq<RawTrade>, span: TimeSpan, limit: nat, outages: seq<bool>, stop: Stop) {
    var g := First(w, stop.cursor); var e := Min(g + limit, |w|);
    && AtCursor(w, span, limit, stop.cursor, stop.reached) && g <= stop.reached <= e
    && (outages == [] ==> e == g || w[e - 1].time == stop.cursor)
  }

  /** Why the walk stopped: a request failed, nothing is left from the cursor on, or the
      page from the cursor does not get past the cursor's own timestamp. */
  lemma {:induction false} StopReason(w: seq<RawTrade>, span: TimeSpan, limit: nat, outages: seq<bool>,
                                      T: int, reached: nat, k: nat)
    requires Window(w, span) && AtCursor(w, span, limit, T, reached)
    ensures StopsWhere(w, span, limit, outages, StopAt(w, span, limit, outages, T, reached, k))
    decreases span.end - T
  {
    hide First, AtCursor, Window;
    var g := First(w, T);
    var e := Min(g + limit, |w|);
    NextCursor(w, span, limit, T, reached);
    if !(Fails(outages, k) || e == g || w[e - 1].time == T) {
      hide StopsWhere;
      StopReason(w, span, limit, outages, w[e - 1].time, e, k + 1);
    }
  }

  lemma StopOfReason(h: seq<RawTrade>, span: TimeSpan, limit: nat, outages: seq<bool>)
    requires History(h, span)
    ensures var w, stop := Within(h, span.start, span.end), StopOf(h, span, limit, outages);
            var g := First(w, stop.cursor); var e := Min(g + limit, |w|);
            && Window(w, span) && AtCursor(w, span, limit, stop.cursor, stop.reached) && g <= stop.reached <= e
            && (outages == [] ==> e == g || w[e - 1].time == stop.cursor)
  {
    hide Within, StopAt, OneSymbol, Sorted;
    WindowOf(h, span);
    var w := Within(h, span.start, span.end);
    assert First(w, span.start) == 0;
    StopReason(w, span, limit, outages, span.start, 0, 0);
  }

  /** Whatever ends the loop, every trade before the cursor it ended at has been returned. */
  lemma NothingLostBeforeCursor(h: seq<RawTrade>, span: TimeSpan, limit: nat, outages: seq<bool>, t: RawTrade)
    requires History(h, span)
    requires t in h && span.start < t.time < StopOf(h, span, limit, outages).cursor
    ensures t.time < span.end && Handle(t) in Backfilled(h, span, limit, outages)
  {
    var w, stop := Within(h, span.start, span.end), StopOf(h, span, limit, outages);
    StopOfReason(h, span, limit, outages);
    BackfilledIsPrefix(h, span, limit, outages);
    WithinHas(h, span.start, span.end, t) by {
      assert stop.cursor <= span.end;
    }
    hide Within, StopOf, Handle, Backfilled, Kept, Sorted, OneSymbol;
    var i :| 0 <= i < |w| && w[i] == t;
    assert First(w, stop.cursor) <= i || i < stop.reached;
    assert w[..stop.reached][i] == t;
    KeptHas(w[..stop.reached], span, i);
  }

  lemma {:induction false} WithinHas(h: seq<RawTrade>, start: int, end: int, t: RawTrade)
    requires t in h && Asked(t, start, end)
    ensures t in Within(h, start, end)
  {
    if t != h[0] {
      WithinHas(h[1..], start, end, t);
    }
  }

  lemma {:induction false} KeptHas(s: seq<RawTrade>, span: TimeSpan, i: nat)
    requires i < |s| && !AtEnds(s[i], span)
    ensures Handle(s[i]) in Kept(s, span)
  {
    if i > 0 {
      KeptHas(s[1..], span, i - 1);
    }
  }

  /** No timestamp of the window holds as many trades as a page. */
  ghost predicate SmallGroups(w: seq<RawTrade>, limit: nat) {
    forall i, j :: 0 <= i <= j < |w| && w[i].time == w[j].time ==> j - i + 1 < limit
  }

  /** With fewer trades per timestamp than a page holds and no failing request, the only
      trades that can be lost are those of the window's last timestamp. */
  lemma OnlyTheLastTimestampIsLost(h: seq<RawTrade>, span: TimeSpan, limit: nat)
    requires History(h, span)
    requires SmallGroups(Within(h, span.start, span.end), limit)
    ensures var w, stop := Within(h, span.start, span.end), StopOf(h, span, limit, []);
            && stop.reached <= |w|
            && (forall i :: stop.reached <= i < |w| ==> w[i].time == w[|w| - 1].time)
            && (0 < |w| ==> w[|w| - 1].time == if stop.reached == 0 then span.start else w[stop.reached - 1].time)
  {
    hide Within, StopOf, History, Window, AtCursor, SmallGroups, First;
    StopOfReason(h, span, limit, []);
    var w, stop := Within(h, span.start, span.end), StopOf(h, span, limit, []);
    GroupsEndTheWindow(w, span, limit, stop.cursor, stop.reached);
  }

  lemma GroupsEndTheWindow(w: seq<RawTrade>, span: TimeSpan, limit: nat, T: int, reached: nat)
    requires Window(w, span) && SmallGroups(w, limit) && AtCursor(w, span, limit, T, reached)
    requires var g := First(w, T); var e := Min(g + limit, |w|);
             g <= reached <= e && (e == g || w[e - 1].time == T)
    ensures forall i :: reached <= i < |w| ==> w[i].time == w[|w| - 1].time
    ensures 0 < |w| ==> w[|w| - 1].time == if reached == 0 then span.start else w[reached - 1].time
  {
    hide First;
    var g := First(w, T);
    var e := Min(g + limit, |w|);
    if e > g {
      assert w[g].time == w[e - 1].time;
      assert e == |w|;
    }
  }

  /** So nothing is lost exactly when the walk reaches the window's end or that last
      timestamp is one of the span's own ends ... */
  lemma SmallGroupsExact(h: seq<RawTrade>, span: TimeSpan, limit: nat)
    requires History(h, span)
    requires SmallGroups(Within(h, span.start, span.end), limit)
    ensures var w, e := Within(h, span.start, span.end), StopOf(h, span, limit, []).reached;
            && e <= |w|
            && (Backfilled(h, span, limit, []) == Expected(h, span) <==> e == |w| || AtEnds(w[|w| - 1], span))
  {
    hide Within, StopOf, History, Backfilled, Expected, SmallGroups;
    CompleteExact(h, span, limit, []);
    OnlyTheLastTimestampIsLost(h, span, limit);
    StopOfReason(h, span, limit, []);
  }

  /** ... which is so in particular when the last timestamp holds a single trade. */
  lemma SingleLastIsComplete(h: seq<RawTrade>, span: TimeSpan, limit: nat)
    requires History(h, span)
    requires var w := Within(h, span.start, span.end);
             && SmallGroups(w, limit)
             && (|w| >= 2 ==> w[|w| - 2].time < w[|w| - 1].time)
    ensures Backfilled(h, span, limit, []) == Expected(h, span)
  {
    hide Within, StopOf, Backfilled, Expected, SmallGroups;
    SmallGroupsExact(h, span, limit);
    OnlyTheLastTimestampIsLost(h, span, limit);
    WindowOf(h, span);
  }

  /** When the whole window fits in one page, nothing is lost. */
  lemma OnePageIsComplete(h: seq<RawTrade>, span: TimeSpan, limit: nat)
    requires History(h, span)
    requires |Within(h, span.start, span.end)| <= limit
    ensures Backfilled(h, span, limit, []) == Expected(h, span)
  {
    WindowOf(h, span);
    CompleteExact(h, span, limit, []);
    hide Within, Backfilled, Expected, History, Kept, Window, StopAt;
    OnePageStop(Within(h, span.start, span.end), span, limit);
  }

  lemma OnePageStop(w: seq<RawTrade>, span: TimeSpan, limit: nat)
    requires Window(w, span) && |w| <= limit
    ensures var e := StopAt(w, span, limit, [], span.start, 0, 0).reached; e <= |w| && NothingWantedFrom(w, e, span)
  {
    assert First(w, span.start) == 0;
    if w != [] && w[|w| - 1].time != span.start {
      NextCursor(w, span, limit, span.start, 0);
      StopReason(w, span, limit, [], w[|w| - 1].time, |w|, 1);
    }
  }

  // ---------------------------------------------------------------- distinct timestamps

  ghost predicate DistinctTimes(w: seq<RawTrade>) {
    forall i, j :: 0 <= i < j < |w| ==> w[i].time < w[j].time
  }

  /** With distinct timestamps the pages overlap in the one trade the loop drops. */
  lemma {:induction false} WalkIsWindow(h: seq<RawTrade>, span: TimeSpan, limit: nat,
                                        T: int, reached: nat, k: nat, done: seq<RawTrade>)
    requires 0 < span.start && 0 < span.end && limit >= 2
    requires var w := Within(h, span.start, span.end);
             && Window(w, span) && DistinctTimes(w) && AtCursor(w, span, limit, T, reached)
             && Kept(done, span) == Kept(w[..reached], span)
    requires span.start <= T
    ensures Kept(done + Walk(Pages(h, span, limit), span, [], T, k), span) ==
            Kept(Within(h, span.start, span.end), span)
    decreases span.end - T
  {
    hide Kept, Within, Page, Sorted, First, Handle, Walk, Fresh, DistinctTimes;
    var w := Within(h, span.start, span.end);
    var g := First(w, T);
    var e := Min(g + limit, |w|);
    var page := Page(h, T, span.end, limit);
    PageIsSlice(h, span, T, limit);
    NextCursor(w, span, limit, T, reached);
    DistinctCursor(w, span, limit, T, reached);
    WalkStep(h, span, limit, [], T, k, done);
    if Stuck(page, T) {
      KeptUpToStart(w, span, reached);
    } else {
      DistinctPage(w, span, done, T, g, reached, e);
      WalkIsWindow(h, span, limit, w[e - 1].time, e, k + 1, done + Fresh(page, T));
    }
  }

  /** The cursor is on the last trade gone through; a page that goes no further is the end. */
  lemma DistinctCursor(w: seq<RawTrade>, span: TimeSpan, limit: nat, T: int, reached: nat)
    requires Window(w, span) && DistinctTimes(w) && AtCursor(w, span, limit, T, reached) && limit >= 2
    ensures var g := First(w, T); var e := Min(g + limit, |w|);
            && (reached > 0 ==> g == reached - 1)
            && (reached == 0 ==> g == 0)
            && (e == g || w[e - 1].time == T ==>
                  reached == |w| || (reached == 0 && |w| == 1 && w[0].time == span.start))
  {
    hide First;
    var g := First(w, T);
    var e := Min(g + limit, |w|);
    assert g == 0 || w[0].time < T;
    assert g == |w| || T <= w[g].time;
  }

  lemma KeptUpToStart(w: seq<RawTrade>, span: TimeSpan, reached: nat)
    requires reached == |w| || (reached == 0 && |w| == 1 && w[0].time == span.start)
    ensures Kept(w[..reached], span) == Kept(w, span)
  {
    if reached == |w| {
      assert w[..reached] == w;
    } else {
      assert w == [w[0]];
      KeptOne(w[0], span);
    }
  }

  lemma DistinctPage(w: seq<RawTrade>, span: TimeSpan, done: seq<RawTrade>, T: int, g: nat, reached: nat, e: nat)
    requires DistinctTimes(w) && g <= reached <= e <= |w| && g < e
    requires Kept(done, span) == Kept(w[..reached], span)
    requires if reached > 0 then g == reached - 1 && w[g].time == T else g == 0 && T == span.start
    ensures Kept(done + Fresh(w[g..e], T), span) == Kept(w[..e], span)
  {
    hide Keep;
    var a := if w[g].time == T then g + 1 else g;
    assert Fresh(w[g..e], T) == w[a..e];
    KeptConcat(done, w[a..e], span);
    assert w[..e] == w[..a] + w[a..e];
    KeptConcat(w[..a], w[a..e], span);
    if a != reached {
      assert w[..1] == [w[0]] && w[..0] == [];
      KeptOne(w[0], span);
      KeptNone(span);
      AtStartNotKept(w[0], span);
    }
  }

  lemma AtStartNotKept(t: RawTrade, span: TimeSpan)
    requires t.time == span.start
    ensures Keep(t, span) == []
  {
  }

  /** With all timestamps distinct and a page of at least two trades the pager by itself
      returns exactly the expected trades. */
  lemma DistinctTimesNeedNoFilter(h: seq<RawTrade>, span: TimeSpan, limit: nat)
    requires History(h, span) && limit >= 2 && DistinctTimes(Within(h, span.start, span.end))
    ensures Kept(Walk(Pages(h, span, limit), span, [], span.start, 0), span) == Expected(h, span)
  {
    WindowOf(h, span);
    ExpectedIsKept(h, span);
    var w := Within(h, span.start, span.end);
    hide Within, Expected, Walk, OneSymbol, Sorted;
    assert w[..0] == [];
    KeptNone(span);
    var walk := Walk(Pages(h, span, limit), span, [], span.start, 0);
    assert [] + walk == walk;
    WalkIsWindow(h, span, limit, span.start, 0, 0, []);
  }

  // ---------------------------------------------------------------- what can go wrong

  function TwoAndTwo(): seq<RawTrade> {
    [RawTrade(1, "X", true, true, 10), RawTrade(2, "X", true, true, 10),
     RawTrade(3, "X", true, true, 20), RawTrade(4, "X", true, true, 20)]
  }

  /** Pages of three; every timestamp holds fewer trades than that. The first page ends
      inside the last timestamp, the second is all of one timestamp, and its second trade,
      strictly inside the span, is lost. */
  lemma LastTimestampLostExample()
    ensures var span := TimeSpan(5, 30);
            && History(TwoAndTwo(), span) && SmallGroups(Within(TwoAndTwo(), span.start, span.end), 3)
            && Backfilled(TwoAndTwo(), span, 3, []) != Expected(TwoAndTwo(), span)
  {
    hide Backfilled, Expected, StopAt, Within, Window, OneSymbol, Sorted, SmallGroups;
    var h, span := TwoAndTwo(), TimeSpan(5, 30);
    WithinAll(h, 5, 30);
    ExampleHistory();
    WindowOf(h, span);
    ExampleStops(span);
    CompleteExact(h, span, 3, []);
    assert !AtEnds(h[3], span);
  }

  lemma ExampleHistory()
    ensures Sorted(TwoAndTwo()) && OneSymbol(TwoAndTwo()) && SmallGroups(TwoAndTwo(), 3)
  {
    var h := TwoAndTwo();
    forall i | 0 <= i < |h| ensures h[i] == RawTrade(i + 1, "X", true, true, if i < 2 then 10 else 20) {
    }
    hide TwoAndTwo;
    assert |h| == 4;
  }

  lemma ExampleStops(span: TimeSpan)
    requires span == TimeSpan(5, 30) && Window(TwoAndTwo(), span)
    ensures StopAt(TwoAndTwo(), span, 3, [], 5, 0, 0) == Stop(20, 3)
  {
    var h := TwoAndTwo();
    FirstIs(h, 5, 0);
    FirstIs(h, 20, 2);
    hide First;
    assert StopAt(h, span, 3, [], 20, 3, 1) == Stop(20, 3);
  }

  lemma {:induction false} WithinAll(h: seq<RawTrade>, start: int, end: int)
    requires forall i :: 0 <= i < |h| ==> Asked(h[i], start, end)
    ensures Within(h, start, end) == h
  {
    if h != [] {
      WithinAll(h[1..], start, end);
    }
  }

  lemma FirstIs(w: seq<RawTrade>, T: int, g: nat)
    requires g < |w| && T <= w[g].time && Sorted(w)
    requires g > 0 ==> w[g - 1].time < T
    ensures First(w, T) == g
  {
  }
}
