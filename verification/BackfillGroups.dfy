/** What the pager loses, as a condition on the history's timestamps and the page size. */
module BackfillGroups {
  import opened Backfill
  import opened BackfillCoverage
  import opened Multiples

  /** The index of the first trade with the timestamp of trade i. */
  function GroupStart(w: seq<RawTrade>, i: nat): (g: nat)
    requires i < |w|
    ensures g <= i
  {
    First(w, w[i].time)
  }

  /** Laying pages over the window, each from the start of the timestamp in which the one
      before ended: one that begins before index s ends strictly between s and the end. */
  ghost predicate PageEndsInside(w: seq<RawTrade>, limit: nat, g: nat, s: nat)
    requires s <= |w|
    decreases |w| - g
  {
    && g < s
    && (if s < g + limit then g + limit < |w|
        else limit > 0 && GroupStart(w, g + limit - 1) > g && PageEndsInside(w, limit, GroupStart(w, g + limit - 1), s))
  }

  /** Where the last timestamp begins. */
  function LastGroup(w: seq<RawTrade>): (s: nat)
    ensures s <= |w| && (|w| > 0 ==> s < |w|)
  {
    if w == [] then 0 else GroupStart(w, |w| - 1)
  }

  // ---------------------------------------------------------------- pages and the walk

  lemma LastGroupIs(w: seq<RawTrade>, span: TimeSpan)
    requires Window(w, span) && |w| > 0
    ensures forall i :: 0 <= i < LastGroup(w) ==> w[i].time < w[|w| - 1].time
    ensures forall i :: LastGroup(w) <= i < |w| ==> w[i].time == w[|w| - 1].time
  {
  }

  /** A walk at the first trade of a timestamp, or at the span's start with nothing behind. */
  ghost predicate AtGroup(w: seq<RawTrade>, span: TimeSpan, T: int, g: nat) {
    g < |w| && First(w, T) == g && (w[g].time == T || (g == 0 && T == span.start))
  }

  /** The walk from a page that goes beyond index s stops at its end, or at the window's. */
  lemma StopsInLastGroup(w: seq<RawTrade>, span: TimeSpan, limit: nat, T: int, reached: nat, k: nat, g: nat)
    requires Window(w, span) && SmallGroups(w, limit) && AtGroup(w, span, T, g)
    requires var s := LastGroup(w); s < g + limit && w[|w| - 1].time != T
    ensures StopAt(w, span, limit, [], T, reached, k).reached == Min(g + limit, |w|)
  {
    var s, e := LastGroup(w), Min(g + limit, |w|);
    LastGroupIs(w, span);
    var T' := w[|w| - 1].time;
    assert w[e - 1].time == T' && T < T';
    assert First(w, T') == s;
    LastGroupFits(w, limit, s);
    hide First, Window, SmallGroups;
    assert StopAt(w, span, limit, [], T', e, k + 1) == Stop(T', e);
  }

  lemma LastGroupFits(w: seq<RawTrade>, limit: nat, s: nat)
    requires SmallGroups(w, limit) && s < |w|
    requires forall i :: s <= i < |w| ==> w[i].time == w[|w| - 1].time
    ensures |w| - s < limit
  {
    assert w[s].time == w[|w| - 1].time;
  }

  /** The walk gets through the window exactly when no page ends inside the last timestamp. */
  lemma {:induction false} WalkAndPages(w: seq<RawTrade>, span: TimeSpan, limit: nat,
                                        T: int, reached: nat, k: nat, g: nat)
    requires Window(w, span) && SmallGroups(w, limit) && AtGroup(w, span, T, g) && g < LastGroup(w)
    ensures var r, s := StopAt(w, span, limit, [], T, reached, k).reached, LastGroup(w);
            s < r <= |w| && (r < |w| <==> PageEndsInside(w, limit, g, s))
    decreases |w| - g
  {
    hide *;
    var s := LastGroup(w);
    if s < g + limit {
      LastPage(w, span, limit, T, reached, k, g);
    } else {
      var e := g + limit;
      OnePage(w, span, limit, T, g);
      NextPage(w, span, limit, T, reached, k, g);
      PagesStep(w, limit, g, s);
      WalkAndPages(w, span, limit, w[e - 1].time, e, k + 1, GroupStart(w, e - 1));
    }
  }

  lemma LastPage(w: seq<RawTrade>, span: TimeSpan, limit: nat, T: int, reached: nat, k: nat, g: nat)
    requires Window(w, span) && SmallGroups(w, limit) && AtGroup(w, span, T, g) && g < LastGroup(w) < g + limit
    ensures var r, s := StopAt(w, span, limit, [], T, reached, k).reached, LastGroup(w);
            s < r <= |w| && (r < |w| <==> PageEndsInside(w, limit, g, s))
  {
    LastGroupIs(w, span);
    assert T <= w[g].time < w[|w| - 1].time;
    StopsInLastGroup(w, span, limit, T, reached, k, g);
    hide StopAt, First, Window, SmallGroups, AtGroup;
  }

  lemma NextPage(w: seq<RawTrade>, span: TimeSpan, limit: nat, T: int, reached: nat, k: nat, g: nat)
    requires Window(w, span) && AtGroup(w, span, T, g) && 0 < limit && g + limit <= |w| && T < w[g + limit - 1].time
    ensures StopAt(w, span, limit, [], T, reached, k)
         == StopAt(w, span, limit, [], w[g + limit - 1].time, g + limit, k + 1)
  {
    hide First, Window;
  }

  /** A page that ends before index s hands over to the next. */
  lemma PagesStep(w: seq<RawTrade>, limit: nat, g: nat, s: nat)
    requires g < s <= |w| && g + limit <= s && limit > 0 && g < GroupStart(w, g + limit - 1)
    ensures PageEndsInside(w, limit, g, s) <==> PageEndsInside(w, limit, GroupStart(w, g + limit - 1), s)
  {
  }

  /** A full page before the last timestamp leads to the start of the timestamp it ends in. */
  lemma OnePage(w: seq<RawTrade>, span: TimeSpan, limit: nat, T: int, g: nat)
    requires Window(w, span) && SmallGroups(w, limit) && AtGroup(w, span, T, g)
    requires g + limit <= LastGroup(w)
    ensures limit > 0 && T < w[g + limit - 1].time
    ensures var g' := GroupStart(w, g + limit - 1);
            g < g' < LastGroup(w) && AtGroup(w, span, w[g + limit - 1].time, g')
  {
    LastGroupIs(w, span);
    LastGroupFits(w, limit, LastGroup(w));
    var e := g + limit;
    assert w[g].time < w[e - 1].time;
    var g' := GroupStart(w, e - 1);
    assert w[g'].time == w[e - 1].time;
  }

  /** With fewer trades per timestamp than a page holds, and the last timestamp not at a
      span end, nothing is lost exactly when no page ends strictly inside that timestamp. */
  lemma PageBoundaryExact(h: seq<RawTrade>, span: TimeSpan, limit: nat)
    requires History(h, span)
    requires var w := Within(h, span.start, span.end);
             SmallGroups(w, limit) && |w| > 0 && !AtEnds(w[|w| - 1], span)
    ensures var w := Within(h, span.start, span.end);
            Backfilled(h, span, limit, []) == Expected(h, span) <==> !PageEndsInside(w, limit, 0, LastGroup(w))
  {
    var w := Within(h, span.start, span.end);
    WindowOf(h, span);
    SmallGroupsExact(h, span, limit);
    hide Within, Backfilled, Expected, History, StopAt, PageEndsInside;
    assert First(w, span.start) == 0;
    WholeWalk(w, span, limit);
  }

  lemma WholeWalk(w: seq<RawTrade>, span: TimeSpan, limit: nat)
    requires Window(w, span) && SmallGroups(w, limit) && |w| > 0 && !AtEnds(w[|w| - 1], span)
    ensures var r := StopAt(w, span, limit, [], span.start, 0, 0).reached;
            r <= |w| && (r < |w| <==> PageEndsInside(w, limit, 0, LastGroup(w)))
  {
    assert First(w, span.start) == 0;
    if LastGroup(w) == 0 {
      LastGroupIs(w, span);
      LastGroupFits(w, limit, 0);
      StopsInLastGroup(w, span, limit, span.start, 0, 0, 0);
    } else {
      WalkAndPages(w, span, limit, span.start, 0, 0, 0);
    }
    hide StopAt;
  }

  // ---------------------------------------------------------------- even timestamps

  /** The largest multiple of c up to i. */
  function Base(i: nat, c: nat): (b: nat)
    requires c > 0
    ensures b <= i < b + c
  {
    i - i % c
  }

  /** Before index s every timestamp holds exactly c trades; from s on there is one more
      timestamp. Distinct timestamps are the case c == 1. */
  ghost predicate EvenGroups(w: seq<RawTrade>, c: nat, s: nat) {
    && 0 < c && s < |w| && Base(s, c) == s
    && (forall i :: 0 <= i < s ==> w[i].time == w[Base(i, c)].time)
    && (forall i, j :: 0 <= i < j < s && Base(j, c) == j ==> w[i].time < w[j].time)
    && (forall i :: 0 <= i < s ==> w[i].time < w[s].time)
    && (forall j :: s <= j < |w| ==> w[j].time == w[s].time)
  }

  lemma EvenLastGroup(w: seq<RawTrade>, span: TimeSpan, c: nat, s: nat)
    requires Window(w, span) && EvenGroups(w, c, s)
    ensures LastGroup(w) == s
  {
  }

  lemma EvenGroupStart(w: seq<RawTrade>, span: TimeSpan, c: nat, s: nat, i: nat)
    requires Window(w, span) && EvenGroups(w, c, s) && i < s
    ensures GroupStart(w, i) == Base(i, c)
  {
    var g := Base(i, c);
    BaseIsMultiple(i, c);
    hide Base;
    assert w[g].time == w[i].time && (g > 0 ==> w[g - 1].time < w[g].time);
    hide EvenGroups;
    FirstIs(w, w[i].time, g);
  }

  lemma BaseIsMultiple(i: nat, c: nat)
    requires c > 0
    ensures Base(i, c) % c == 0 && Base(Base(i, c), c) == Base(i, c)
  {
    AddMultiple(0, i / c, c);
    assert Base(i, c) == i / c * c;
  }

  /** How far one page leads when timestamps hold c trades each. */
  function Stride(c: nat, limit: nat): (q: nat)
    requires 0 < c < limit
    ensures c <= q < limit
  {
    var q := (limit - 1) / c * c;
    assert q == limit - 1 - (limit - 1) % c;
    q
  }

  lemma StrideLeads(c: nat, limit: nat, g: nat)
    requires 0 < c < limit && MultipleOf(g, c)
    ensures Base(g + limit - 1, c) == g + Stride(c, limit)
  {
    AddMultiple(limit - 1, g / c, c);
    assert g / c * c == g;
  }

  /** Two multiples of c less than limit apart are at most a stride apart. */
  lemma StrideReaches(c: nat, limit: nat, g: nat, s: nat)
    requires 0 < c < limit && MultipleOf(g, c) && MultipleOf(s, c) && g < s
    ensures s < g + limit <==> s - g <= Stride(c, limit)
  {
    AddMultiple(s, -(g / c), c);
    assert g / c * c == g && -(g / c) * c == 0 - g;
    NoMultipleWithin(s - g, limit - 1, c);
  }

  lemma NoMultipleWithin(d: nat, x: nat, c: nat)
    requires c > 0 && d % c == 0
    ensures d <= x <==> d <= x / c * c
  {
    if x / c * c < d <= x {
      AddMultiple(d, -(x / c), c);
      assert -(x / c) * c == -(x / c * c);
      SameRemainder(d - x / c * c, 0, c);
    }
  }

  /** The last timestamp does not fit on the page its first trade falls on, for pages laid
      from index g on. */
  ghost predicate Overflows(w: seq<RawTrade>, limit: nat, c: nat, s: nat, g: nat)
    requires 0 < c < limit && g < s <= |w|
  {
    (s - g - 1) % Stride(c, limit) + (|w| - s) > limit - 1
  }

  predicate MultipleOf(g: nat, c: nat)
    requires c > 0
  {
    g % c == 0
  }

  /** With even timestamps the pages begin at the multiples of the stride. */
  lemma {:induction false} EvenPages(w: seq<RawTrade>, span: TimeSpan, limit: nat, c: nat, s: nat, g: nat)
    requires Window(w, span) && EvenGroups(w, c, s) && 0 < c < limit && g < s <= |w| && MultipleOf(g, c)
    ensures PageEndsInside(w, limit, g, s) <==> Overflows(w, limit, c, s, g)
    decreases s - g
  {
    hide *;
    if s < g + limit {
      LastEvenPage(w, limit, c, s, g);
    } else {
      NextEvenPage(w, span, limit, c, s, g);
      EvenPages(w, span, limit, c, s, g + Stride(c, limit));
    }
  }

  lemma LastEvenPage(w: seq<RawTrade>, limit: nat, c: nat, s: nat, g: nat)
    requires EvenGroups(w, c, s) && 0 < c < limit && g < s < g + limit && s <= |w| && MultipleOf(g, c)
    ensures PageEndsInside(w, limit, g, s) <==> Overflows(w, limit, c, s, g)
  {
    StrideReaches(c, limit, g, s);
    SameRemainder(s - g - 1, 0, Stride(c, limit));
    hide EvenGroups, Stride, MultipleOf, Base;
  }

  lemma StrideOn(c: nat, limit: nat, g: nat, s: nat)
    requires 0 < c < limit && MultipleOf(g, c) && MultipleOf(s, c) && g + limit <= s
    ensures var q := Stride(c, limit);
            g + q < s && MultipleOf(g + q, c) && (s - g - 1 - q) % q == (s - g - 1) % q
  {
    StrideReaches(c, limit, g, s);
    NextMultiple(g, c, limit);
    hide Stride;
    OneStrideOff(s - g - 1, Stride(c, limit));
  }

  lemma NextEvenPage(w: seq<RawTrade>, span: TimeSpan, limit: nat, c: nat, s: nat, g: nat)
    requires Window(w, span) && EvenGroups(w, c, s) && 0 < c < limit && g + limit <= s <= |w| && MultipleOf(g, c)
    ensures var q := Stride(c, limit);
            && g + q < s && MultipleOf(g + q, c)
            && (PageEndsInside(w, limit, g, s) <==> PageEndsInside(w, limit, g + q, s))
            && (Overflows(w, limit, c, s, g) <==> Overflows(w, limit, c, s, g + q))
  {
    hide *;
    EvenIsMultiple(w, c, s);
    StrideOn(c, limit, g, s);
    StrideLeads(c, limit, g);
    EvenGroupStart(w, span, c, s, g + limit - 1);
    PagesStep(w, limit, g, s);
    OverflowsOn(w, limit, c, s, g);
  }

  lemma EvenIsMultiple(w: seq<RawTrade>, c: nat, s: nat)
    requires EvenGroups(w, c, s)
    ensures c > 0 && s < |w| && MultipleOf(s, c)
  {
  }

  lemma OverflowsOn(w: seq<RawTrade>, limit: nat, c: nat, s: nat, g: nat)
    requires 0 < c < limit && g + Stride(c, limit) < s <= |w|
    requires var q := Stride(c, limit); (s - g - 1 - q) % q == (s - g - 1) % q
    ensures Overflows(w, limit, c, s, g) <==> Overflows(w, limit, c, s, g + Stride(c, limit))
  {
    hide Stride;
    assert s - (g + Stride(c, limit)) - 1 == s - g - 1 - Stride(c, limit);
  }

  lemma NextMultiple(g: nat, c: nat, limit: nat)
    requires 0 < c < limit && g % c == 0
    ensures (g + Stride(c, limit)) % c == 0
  {
    AddMultiple(g, (limit - 1) / c, c);
  }

  lemma OneStrideOff(x: nat, q: nat)
    requires 0 < q <= x
    ensures (x - q) % q == x % q
  {
    AddMultiple(x, -1, q);
  }

  /** When every timestamp but the last holds c trades, fewer than a page, nothing is lost
      exactly when the last one fits on the page that its first trade falls on: with m
      trades, the first at index s, and pages that lead q = Stride(c, limit) trades on,
      (s - 1) % q + m <= limit - 1. */
  lemma EvenGroupsExact(h: seq<RawTrade>, span: TimeSpan, limit: nat, c: nat, s: nat)
    requires History(h, span) && c < limit
    requires var w := Within(h, span.start, span.end);
             EvenGroups(w, c, s) && |w| - s < limit && !AtEnds(w[|w| - 1], span)
    ensures var m := |Within(h, span.start, span.end)| - s;
            Backfilled(h, span, limit, []) == Expected(h, span) <==>
            s == 0 || (s - 1) % Stride(c, limit) + m <= limit - 1
  {
    var w := Within(h, span.start, span.end);
    WindowOf(h, span);
    EvenAreSmall(w, span, limit, c, s);
    EvenLastGroup(w, span, c, s);
    PageBoundaryExact(h, span, limit);
    hide Within, Backfilled, Expected, History, EvenGroups, SmallGroups, Window, LastGroup, Stride;
    EvenAtStart(w, span, limit, c, s);
  }

  lemma EvenAtStart(w: seq<RawTrade>, span: TimeSpan, limit: nat, c: nat, s: nat)
    requires Window(w, span) && EvenGroups(w, c, s) && c < limit
    ensures !PageEndsInside(w, limit, 0, s) <==> s == 0 || (s - 1) % Stride(c, limit) + (|w| - s) <= limit - 1
  {
    if s > 0 {
      SameRemainder(0, 0, c);
      EvenPages(w, span, limit, c, s, 0);
    }
    hide EvenGroups, Window, Stride, PageEndsInside;
  }

  lemma EvenAreSmall(w: seq<RawTrade>, span: TimeSpan, limit: nat, c: nat, s: nat)
    requires Window(w, span) && EvenGroups(w, c, s) && c < limit && |w| - s < limit
    ensures SmallGroups(w, limit)
  {
    forall i, j | 0 <= i <= j < |w| && w[i].time == w[j].time ensures j - i + 1 < limit {
      if j < s {
        SameGroup(w, span, c, s, i, j);
      }
    }
  }

  lemma SameGroup(w: seq<RawTrade>, span: TimeSpan, c: nat, s: nat, i: nat, j: nat)
    requires Window(w, span) && EvenGroups(w, c, s) && i <= j < s && w[i].time == w[j].time
    ensures j - i < c
  {
    EvenGroupStart(w, span, c, s, j);
    hide EvenGroups, Base;
    assert GroupStart(w, j) <= i;
  }

  /** Before index s every timestamp holds one trade; from s on there is one more timestamp. */
  ghost predicate DistinctBefore(w: seq<RawTrade>, s: nat) {
    && s < |w|
    && (forall i, j :: 0 <= i < j <= s ==> w[i].time < w[j].time)
    && (forall j :: s <= j < |w| ==> w[j].time == w[s].time)
  }

  /** With distinct timestamps before the last one the stride is the page less the one trade
      that overlaps: nothing is lost exactly when (s - 1) % (limit - 1) + m <= limit - 1. */
  lemma DistinctGroupsExact(h: seq<RawTrade>, span: TimeSpan, limit: nat, s: nat)
    requires History(h, span) && limit >= 2
    requires var w := Within(h, span.start, span.end);
             DistinctBefore(w, s) && |w| - s < limit && !AtEnds(w[|w| - 1], span)
    ensures var m := |Within(h, span.start, span.end)| - s;
            Backfilled(h, span, limit, []) == Expected(h, span) <==>
            s == 0 || (s - 1) % (limit - 1) + m <= limit - 1
  {
    hide *;
    DistinctIsEven(Within(h, span.start, span.end), s);
    DistinctStride(limit);
    EvenGroupsExact(h, span, limit, 1, s);
  }

  lemma DistinctStride(limit: nat)
    requires limit >= 2
    ensures Stride(1, limit) == limit - 1
  {
  }

  lemma DistinctIsEven(w: seq<RawTrade>, s: nat)
    requires DistinctBefore(w, s)
    ensures EvenGroups(w, 1, s)
  {
    assert forall i: nat :: Base(i, 1) == i;
  }
}
