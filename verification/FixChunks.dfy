/** A stream received in any number of chunks: on a stream with proper trailers the result
    is that of the whole stream exactly when no cut destroys a marker. */
module FixChunks {
  import opened FixFraming

  // ---------------------------------------------------------------- what can be lost

  function TotalLength(frames: seq<string>): nat {
    if frames == [] then 0 else |frames[0]| + TotalLength(frames[1..])
  }

  /** How many characters are in frames or can still become part of one. */
  function Weight(r: Received): nat {
    TotalLength(r.frames) + |FromMarker(r.rest)|
  }

  lemma SameWeight(a: Received, b: Received)
    requires Same(a, b)
    ensures Weight(a) == Weight(b)
  {
  }

  lemma WeightOfFirst(f: string, r: Received)
    ensures Weight(Received([f] + r.frames, r.rest)) == |f| + Weight(r)
  {
    assert ([f] + r.frames)[1..] == r.frames;
  }

  lemma WeightBehind(frames: seq<string>, a: Received)
    ensures Weight(Behind(frames, a)) == TotalLength(frames) + Weight(a)
  {
    if frames == [] {
      assert frames + a.frames == a.frames;
    } else {
      WeightBehind(frames[1..], a);
      assert (frames + a.frames)[1..] == frames[1..] + a.frames;
    }
  }

  lemma {:induction false} WeightIsShort(s: string)
    ensures Weight(Drain(s)) <= |s|
    decreases |s|
  {
    var i, e := Find(s, MARKER, 0), FrameEnd(s);
    if i != -1 && e != -1 {
      WeightIsShort(s[e..]);
      WeightOfFirst(s[i..e], Drain(s[e..]));
    }
  }

  /** A destroyed marker costs characters. */
  lemma StraddleCosts(x: string, y: string)
    requires ProperTrailers(x + y) && Find(x, MARKER, 0) == -1 && Straddles(x, y)
    ensures Weight(Drain(y)) < Weight(Drain(x + y))
  {
    var i, e := Find(x + y, MARKER, 0), FrameEnd(x + y);
    if i + 5 <= |x| {
      MatchInPrefix(x, y, MARKER, i);
    }
    if e == -1 {
      WeightIsShort(y);
      assert FromMarker(x + y) == (x + y)[i..];
    } else {
      CompleteFrameCosts(x, y, i, e);
    }
  }

  lemma CompleteFrameCosts(x: string, y: string, i: nat, e: nat)
    requires ProperTrailers(x + y) && Find(x + y, MARKER, 0) == i < |x| <= e && FrameEnd(x + y) == e
    ensures Weight(Drain(y)) < Weight(Drain(x + y))
  {
    hide Drain, Find, ProperTrailers, MatchAt, Weight;
    var m := Find(y, MARKER, 0);
    DrainTurn(x + y);
    DrainTurn(y);
    WeightOfFirst((x + y)[i..e], Drain((x + y)[e..]));
    if m == -1 {
      NoWeight();
    } else {
      MatchInSuffix(x, y, MARKER, |x| + m);
      if |x| + m >= e {
        LaterMarkerSame(x, y, e);
      } else {
        MatchChar(x + y, MARKER, |x| + m, 0);
        MarkerBeforeTrailer(x + y, e - 8, |x| + m);
        EarlierMarker(x, y, e, m);
        WeightOfFirst(y[m..e - |x|], Drain(y[e - |x|..]));
        assert y[e - |x|..] == (x + y)[e..];
      }
    }
    hide FrameEnd;
  }

  lemma NoWeight()
    ensures Weight(Received([], "")) == 0
  {
  }

  lemma LaterMarkerSame(x: string, y: string, e: nat)
    requires |x| <= e <= |x + y| && |x| + Find(y, MARKER, 0) >= e
    ensures Weight(Drain((x + y)[e..])) == Weight(Drain(y))
  {
    var a, b := y[..e - |x|], y[e - |x|..];
    assert y == a + b && (x + y)[e..] == b;
    assert !Straddles(a, b);
    DrainDropsJunk(a, b);
    SameWeight(Drain(a + b), Drain(b));
  }

  /** A cut costs characters exactly when it destroys a marker. */
  lemma {:induction false} CutCosts(x: string, y: string)
    requires ProperTrailers(x + y)
    ensures Weight(FeedAfter(Drain(x), y)) <= Weight(Drain(x + y))
    ensures Weight(FeedAfter(Drain(x), y)) == Weight(Drain(x + y)) <==> !CutLosesMarker(x, y)
    decreases |x|
  {
    var i, e := Find(x, MARKER, 0), FrameEnd(x);
    if !CutLosesMarker(x, y) {
      CutHarmless(x, y);
      SameWeight(Drain(x + y), FeedAfter(Drain(x), y));
    } else if e != -1 {
      ProperSuffix(x, y, e);
      CutCosts(x[e..], y);
      CutBehindFrame(x, y, i, e);
    } else {
      CutUnframed(x, y);
      StraddleCosts(x, y);
    }
  }

  lemma CutBehindFrame(x: string, y: string, i: nat, e: nat)
    requires FrameEnd(x) == e && Find(x, MARKER, 0) == i
    ensures i <= e <= |x|
    ensures Weight(FeedAfter(Drain(x), y)) == e - i + Weight(FeedAfter(Drain(x[e..]), y))
    ensures Weight(Drain(x + y)) == e - i + Weight(Drain(x[e..] + y))
  {
    DrainFirst(x, y, i, e);
    hide *;
    BehindFrame(x, y, i, e);
  }

  lemma BehindFrame(x: string, y: string, i: nat, e: nat)
    requires i <= e <= |x|
    requires Drain(x) == Received([x[i..e]] + Drain(x[e..]).frames, Drain(x[e..]).rest)
    requires Drain(x + y) == Received([x[i..e]] + Drain(x[e..] + y).frames, Drain(x[e..] + y).rest)
    ensures Weight(FeedAfter(Drain(x), y)) == e - i + Weight(FeedAfter(Drain(x[e..]), y))
    ensures Weight(Drain(x + y)) == e - i + Weight(Drain(x[e..] + y))
  {
    hide Drain, Weight;
    var f := FeedAfter(Drain(x[e..]), y);
    assert FeedAfter(Drain(x), y) == Received([x[i..e]] + f.frames, f.rest);
    WeightOfFirst(x[i..e], f);
    WeightOfFirst(x[i..e], Drain(x[e..] + y));
  }

  // ---------------------------------------------------------------- the first of many chunks

  /** The cut after k chunks destroys a marker of the stream. */
  ghost predicate CutAtLosesMarker(chunks: seq<string>, k: nat) {
    k <= |chunks| && CutLosesMarker(Concat(chunks[..k]), Concat(chunks[k..]))
  }

  ghost predicate SomeCutLosesMarker(chunks: seq<string>) {
    exists k: nat :: CutAtLosesMarker(chunks, k)
  }

  /** The chunks after the first, led by the buffer that the first one left. */
  function Onward(chunks: seq<string>): seq<string>
    requires |chunks| >= 2
  {
    [Drain(chunks[0]).rest + chunks[1]] + chunks[2..]
  }

  lemma {:induction false} ConcatJoin(a: seq<string>, b: seq<string>)
    ensures Concat(a + b) == Concat(a) + Concat(b)
  {
    if b == [] {
      assert a + b == a;
    } else {
      ConcatJoin(a, b[..|b| - 1]);
      assert (a + b)[..|a + b| - 1] == a + b[..|b| - 1];
    }
  }

  lemma ConcatOne(s: string)
    ensures Concat([s]) == s
  {
    assert [s][..0] == [];
    assert "" + s == s;
  }

  lemma ConcatFirst(chunks: seq<string>)
    requires |chunks| >= 1
    ensures Concat(chunks) == chunks[0] + Concat(chunks[1..])
  {
    assert chunks == [chunks[0]] + chunks[1..];
    ConcatJoin([chunks[0]], chunks[1..]);
    ConcatOne(chunks[0]);
  }

  lemma ConcatOnward(chunks: seq<string>, k: nat)
    requires |chunks| >= 2 && k <= |chunks| - 2
    ensures Concat(Onward(chunks)[..k + 1]) == Drain(chunks[0]).rest + Concat(chunks[1..k + 2])
    ensures |Onward(chunks)| == |chunks| - 1 && Onward(chunks)[k + 1..] == chunks[k + 2..]
    ensures Concat(chunks[..k + 2]) == chunks[0] + Concat(chunks[1..k + 2])
  {
    var on, r, c := Onward(chunks), Drain(chunks[0]).rest, chunks[1];
    assert on[0] == r + c && forall i :: 0 < i < |on| ==> on[i] == chunks[i + 1];
    assert on[..k + 1][1..] == chunks[2..k + 2];
    hide *;
    ConcatFirst(on[..k + 1]);
    ConcatFirst(chunks[1..k + 2]);
    ConcatFirst(chunks[..k + 2]);
    assert chunks[1..k + 2][1..] == chunks[2..k + 2] && chunks[..k + 2][1..] == chunks[1..k + 2];
    assert r + (c + Concat(chunks[2..k + 2])) == (r + c) + Concat(chunks[2..k + 2]);
  }

  lemma WholeOnward(chunks: seq<string>)
    requires |chunks| >= 2
    ensures |Onward(chunks)| == |chunks| - 1
    ensures Concat(Onward(chunks)) == Drain(chunks[0]).rest + Concat(chunks[1..])
    ensures Concat(chunks) == chunks[0] + Concat(chunks[1..])
  {
    hide *;
    ConcatOnward(chunks, |chunks| - 2);
    assert chunks[1..|chunks|] == chunks[1..] && chunks[..|chunks|] == chunks;
    assert Onward(chunks)[..|chunks| - 1] == Onward(chunks);
  }

  /** Feeding the chunks is feeding the first and then what it leaves with the others. */
  lemma {:induction false} FeedFirst(chunks: seq<string>)
    requires |chunks| >= 2
    ensures FeedAll(chunks) == Behind(Drain(chunks[0]).frames, FeedAll(Onward(chunks)))
  {
    var n := |chunks| - 1;
    FeedLast(chunks);
    FeedLast(Onward(chunks));
    if n == 1 {
      FeedTwo(chunks);
    } else {
      FeedFirst(chunks[..n]);
      OnwardLast(chunks);
      FeedBehind(Drain(chunks[0]).frames, FeedAll(Onward(chunks[..n])), chunks[n]);
    }
    hide *;
  }

  lemma OnwardLast(chunks: seq<string>)
    requires |chunks| >= 3
    ensures var on, n := Onward(chunks), |chunks| - 1;
            |on| == n && on[..n - 1] == Onward(chunks[..n]) && on[n - 1] == chunks[n]
  {
  }

  lemma FeedLast(chunks: seq<string>)
    requires |chunks| >= 1
    ensures FeedAll(chunks) == FeedAfter(FeedAll(chunks[..|chunks| - 1]), chunks[|chunks| - 1])
  {
  }

  lemma FeedTwo(chunks: seq<string>)
    requires |chunks| == 2
    ensures FeedAll(chunks) == Behind(Drain(chunks[0]).frames, FeedAll(Onward(chunks)))
  {
    FeedLast(chunks);
    assert chunks[..1] == [chunks[0]];
    assert Onward(chunks) == [Drain(chunks[0]).rest + chunks[1]];
    FeedOne(chunks[0]);
    FeedOne(Drain(chunks[0]).rest + chunks[1]);
    hide Drain, FeedAll;
  }

  function Behind(frames: seq<string>, r: Received): Received {
    Received(frames + r.frames, r.rest)
  }

  lemma FeedBehind(frames: seq<string>, r: Received, y: string)
    ensures FeedAfter(Behind(frames, r), y) == Behind(frames, FeedAfter(r, y))
  {
    var last := Drain(r.rest + y).frames;
    assert (frames + r.frames) + last == frames + (r.frames + last);
    hide Drain;
  }

  lemma FeedOne(s: string)
    ensures FeedAll([s]) == Drain(s)
  {
    assert [s][..0] == [];
    assert "" + s == s && [] + Drain(s).frames == Drain(s).frames;
  }

  // ---------------------------------------------------------------- markers behind the first cut

  /** Complete frames do not matter for what is left unframed. */
  lemma {:induction false} UnframedBehind(x: string, y: string)
    ensures Unframed(x + y) == Unframed(Unframed(x) + y)
    decreases |x|
  {
    var e := FrameEnd(x);
    if e != -1 {
      FirstFrameStable(x, y);
      assert (x + y)[e..] == x[e..] + y;
      UnframedBehind(x[e..], y);
    }
  }

  lemma StraddlesMore(t: string, y: string, z: string)
    requires Straddles(t, y)
    ensures Straddles(t, y + z)
  {
    var i: nat :| i < |t| && MatchAt(t + y, MARKER, i);
    assert t + (y + z) == (t + y) + z;
    MatchInPrefix(t + y, z, MARKER, i);
  }

  /** Junk that forms no marker with the stream does not matter either. */
  lemma JunkBehind(t: string, d: string, y: string)
    requires Find(t, MARKER, 0) == -1 && !Straddles(t, d + y)
    ensures CutLosesMarker(t + d, y) <==> CutLosesMarker(d, y)
  {
    if Straddles(t, d) {
      StraddlesMore(t, d, y);
    }
    FirstFrameAfterJunk(t, d);
    if FrameEnd(d) == -1 {
      JunkStraddles(t, d, y);
    } else {
      assert (t + d)[|t| + FrameEnd(d)..] == d[FrameEnd(d)..];
    }
    hide Find, FrameEnd, Straddles;
  }

  lemma JunkStraddles(t: string, d: string, y: string)
    requires !Straddles(t, d + y)
    ensures Straddles(t + d, y) <==> Straddles(d, y)
  {
    assert (t + d) + y == t + (d + y);
    if i: nat :| i < |t + d| && MatchAt((t + d) + y, MARKER, i) {
      MatchInSuffix(t, d + y, MARKER, i);
    }
    if i: nat :| i < |d| && MatchAt(d + y, MARKER, i) {
      MatchInSuffix(t, d + y, MARKER, |t| + i);
      assert MatchAt((t + d) + y, MARKER, |t| + i);
    }
  }

  /** A later cut destroys a marker of the stream exactly when it destroys one of what the
      first chunk left and the rest, if the first cut destroys none. */
  lemma LaterCut(c: string, d: string, y: string)
    requires !CutLosesMarker(c, d + y)
    ensures CutLosesMarker(c + d, y) <==> CutLosesMarker(Drain(c).rest + d, y)
  {
    var t := Unframed(c);
    RestIsUnframed(c);
    UnframedBehind(c, d);
    if Find(t, MARKER, 0) == -1 {
      JunkBehind(t, d, y);
      assert "" + d == d;
    }
    hide Drain, Unframed, Find, Straddles;
  }

  lemma CutOnward(chunks: seq<string>, k: nat)
    requires 2 <= k <= |chunks| && !CutLosesMarker(chunks[0], Concat(chunks[1..]))
    ensures CutAtLosesMarker(chunks, k) <==> CutAtLosesMarker(Onward(chunks), k - 1)
  {
    hide CutLosesMarker, Concat, Onward, Find, Straddles, Unframed;
    ConcatOnward(chunks, k - 2);
    var on, here, there := Onward(chunks), Concat(chunks[..k]), Concat(chunks[k..]);
    var left := Concat(on[..k - 1]);
    assert CutAtLosesMarker(chunks, k) == CutLosesMarker(here, there);
    assert CutAtLosesMarker(on, k - 1) == CutLosesMarker(left, there);
    hide *;
    assert chunks[1..] == chunks[1..k] + chunks[k..];
    ConcatJoin(chunks[1..k], chunks[k..]);
    LaterCut(chunks[0], Concat(chunks[1..k]), there);
  }

  lemma LosesOnward(chunks: seq<string>)
    requires |chunks| >= 2 && !CutLosesMarker(chunks[0], Concat(chunks[1..]))
    ensures SomeCutLosesMarker(chunks) <==> SomeCutLosesMarker(Onward(chunks))
  {
    hide CutLosesMarker, Concat, Drain;
    EarlyCuts(chunks);
    EarlyCuts(Onward(chunks));
    if k: nat :| CutAtLosesMarker(chunks, k) {
      CutOnward(chunks, k);
    }
    if k: nat :| CutAtLosesMarker(Onward(chunks), k) {
      CutOnward(chunks, k + 1);
    }
  }

  lemma EarlyCuts(chunks: seq<string>)
    requires |chunks| >= 1
    ensures !CutLosesMarker(Concat(chunks[..0]), Concat(chunks[0..]))
    ensures Concat(chunks[..1]) == chunks[0]
  {
    assert chunks[..0] == [] && chunks[..1] == [chunks[0]];
    ConcatOne(chunks[0]);
  }

  // ---------------------------------------------------------------- the exact condition

  /** A proper stream stays proper behind the frames that are complete. */
  lemma ProperRest(x: string, y: string)
    requires ProperTrailers(x + y)
    ensures ProperTrailers(Drain(x).rest + y)
  {
    hide *;
    RestIsUnframed(x);
    UnframedIsSuffix(x);
    if Drain(x).rest == "" {
      ProperSuffix(x, y, |x|);
      assert x[|x|..] == "";
    } else {
      ProperSuffix(x, y, |x| - |Unframed(x)|);
    }
  }

  /** Chunks never gain characters, and lose none exactly when no cut destroys a marker. */
  lemma {:induction false} ChunksCost(chunks: seq<string>)
    requires ProperTrailers(Concat(chunks))
    ensures Weight(FeedAll(chunks)) <= Weight(Drain(Concat(chunks)))
    ensures Weight(FeedAll(chunks)) == Weight(Drain(Concat(chunks))) <==> !SomeCutLosesMarker(chunks)
    decreases |chunks|
  {
    if |chunks| < 2 {
      FewChunks(chunks);
    } else {
      hide *;
      var c, y := chunks[0], Concat(chunks[1..]);
      WholeOnward(chunks);
      ProperRest(c, y);
      ChunksCost(Onward(chunks));
      CutCosts(c, y);
      FeedFirst(chunks);
      WeightBehind(Drain(c).frames, FeedAll(Onward(chunks)));
      WeightBehind(Drain(c).frames, Drain(Drain(c).rest + y));
      FeedAfterIsBehind(Drain(c), y);
      if CutLosesMarker(c, y) {
        FirstCutLoses(chunks);
      } else {
        LosesOnward(chunks);
      }
    }
  }

  lemma FirstCutLoses(chunks: seq<string>)
    requires |chunks| >= 2 && CutLosesMarker(chunks[0], Concat(chunks[1..]))
    ensures SomeCutLosesMarker(chunks)
  {
    EarlyCuts(chunks);
    assert CutAtLosesMarker(chunks, 1);
  }

  lemma FewChunks(chunks: seq<string>)
    requires |chunks| < 2
    ensures FeedAll(chunks) == Drain(Concat(chunks)) && !SomeCutLosesMarker(chunks)
  {
    if |chunks| == 1 {
      FeedOne(chunks[0]);
      ConcatOne(chunks[0]);
      assert chunks == [chunks[0]];
    }
    forall k: nat ensures !CutAtLosesMarker(chunks, k) {
      if k == |chunks| {
        assert chunks[k..] == [];
        NoCutAtTheEnd(Concat(chunks[..k]));
      }
    }
  }

  lemma NoCutAtTheEnd(x: string)
    ensures !CutLosesMarker(x, "")
  {
    assert Unframed(x) + "" == Unframed(x);
  }

  /** On a stream with proper trailers, any number of chunks give what the whole stream gives
      exactly when no cut destroys a marker. */
  lemma ChunkingExact(chunks: seq<string>)
    requires ProperTrailers(Concat(chunks))
    ensures Same(FeedAll(chunks), Drain(Concat(chunks))) <==> !SomeCutLosesMarker(chunks)
  {
    hide Drain, FeedAll, Weight, Same, SomeCutLosesMarker, ProperTrailers;
    ChunksCost(chunks);
    if SomeCutLosesMarker(chunks) {
      if Same(FeedAll(chunks), Drain(Concat(chunks))) {
        SameWeight(FeedAll(chunks), Drain(Concat(chunks)));
      }
    } else {
      HarmlessChunks(chunks);
    }
  }

  lemma SameBehind(frames: seq<string>, a: Received, b: Received)
    requires Same(a, b)
    ensures Same(Behind(frames, a), Behind(frames, b))
  {
  }

  lemma FeedAfterIsBehind(before: Received, y: string)
    ensures FeedAfter(before, y) == Behind(before.frames, Drain(before.rest + y))
  {
    hide Drain;
  }

  lemma SameTransitive(a: Received, b: Received, c: Received)
    requires Same(a, b) && Same(c, b)
    ensures Same(a, c)
  {
  }

  /** The harmless direction, for all streams. */
  lemma {:induction false} HarmlessChunks(chunks: seq<string>)
    requires !SomeCutLosesMarker(chunks)
    ensures Same(FeedAll(chunks), Drain(Concat(chunks)))
    decreases |chunks|
  {
    if |chunks| < 2 {
      FewChunks(chunks);
    } else {
      var on := Onward(chunks);
      hide *;
      var c, y := chunks[0], Concat(chunks[1..]);
      if CutLosesMarker(c, y) {
        FirstCutLoses(chunks);
      }
      LosesOnward(chunks);
      WholeOnward(chunks);
      HarmlessChunks(on);
      CutHarmless(c, y);
      FeedFirst(chunks);
      SameBehind(Drain(c).frames, FeedAll(on), Drain(Drain(c).rest + y));
      FeedAfterIsBehind(Drain(c), y);
      SameTransitive(FeedAll(chunks), FeedAfter(Drain(c), y), Drain(c + y));
    }
  }
}
