/** Stream framing of the FIX 4.4 client: `send_message` builds frames, `process_buffer`
    cuts the received character stream back into frames. */
module FixFraming {
  import opened Numerals

  const SOH: char := '\U{0001}'
  const MARKER: string := "8=FIX"
  const TRAILER: string := [SOH] + "10="

  // ---------------------------------------------------------------- searching

  predicate MatchAt(s: string, pat: string, i: nat) {
    i + |pat| <= |s| && s[i..i + |pat|] == pat
  }

  /** Python's `s.find(pat, from)`. */
  function Find(s: string, pat: string, from: nat): (r: int)
    requires from <= |s|
    ensures r == -1 || (from <= r && MatchAt(s, pat, r))
    ensures forall i: nat :: from <= i && (r == -1 || i < r) ==> !MatchAt(s, pat, i)
    decreases |s| - from
  {
    if MatchAt(s, pat, from) then from
    else if from == |s| then -1
    else Find(s, pat, from + 1)
  }

  lemma MatchChar(s: string, pat: string, i: nat, k: nat)
    requires MatchAt(s, pat, i) && k < |pat|
    ensures s[i + k] == pat[k]
  {
    assert s[i..i + |pat|][k] == s[i + k];
  }

  lemma NoMatch(s: string, pat: string, i: nat, k: nat)
    requires k < |pat| && (i + |pat| > |s| || s[i + k] != pat[k])
    ensures !MatchAt(s, pat, i)
  {
    if MatchAt(s, pat, i) {
      MatchChar(s, pat, i, k);
    }
  }

  /** A match fixes the result of a search once no earlier match exists. */
  lemma FindIs(s: string, pat: string, from: nat, r: nat)
    requires from <= r <= |s| && MatchAt(s, pat, r)
    requires forall i: nat :: from <= i < r ==> !MatchAt(s, pat, i)
    ensures Find(s, pat, from) == r
  {
  }

  lemma FindIsNone(s: string, pat: string, from: nat)
    requires from <= |s|
    requires forall i: nat :: from <= i ==> !MatchAt(s, pat, i)
    ensures Find(s, pat, from) == -1
  {
  }

  /** Appending text changes no match that lies within the old text. */
  lemma MatchInPrefix(x: string, y: string, pat: string, i: nat)
    requires i + |pat| <= |x|
    ensures MatchAt(x + y, pat, i) == MatchAt(x, pat, i)
  {
    assert (x + y)[i..i + |pat|] == x[i..i + |pat|];
  }

  lemma MatchInSuffix(x: string, y: string, pat: string, i: nat)
    requires i >= |x|
    ensures MatchAt(x + y, pat, i) == MatchAt(y, pat, i - |x|)
  {
    if i + |pat| <= |x + y| {
      assert (x + y)[i..i + |pat|] == y[i - |x|..i - |x| + |pat|];
    }
  }

  lemma FindExtend(x: string, y: string, pat: string, from: nat)
    requires from <= |x| && Find(x, pat, from) != -1
    ensures Find(x + y, pat, from) == Find(x, pat, from)
  {
    var r := Find(x, pat, from);
    MatchInPrefix(x, y, pat, r);
    forall i: nat | from <= i < r ensures !MatchAt(x + y, pat, i) {
      MatchInPrefix(x, y, pat, i);
    }
    FindIs(x + y, pat, from, r);
  }

  /** A search that finds nothing before |x| is a search of the rest. */
  lemma FindSkip(x: string, y: string, pat: string)
    requires forall i: nat :: i < |x| ==> !MatchAt(x + y, pat, i)
    ensures Find(x + y, pat, 0) == if Find(y, pat, 0) == -1 then -1 else |x| + Find(y, pat, 0)
  {
    FindShift(x, y, pat, 0);
    var r := Find(x + y, pat, |x|);
    if r == -1 {
      FindIsNone(x + y, pat, 0);
    } else {
      FindIs(x + y, pat, 0, r);
    }
  }

  lemma FindShift(x: string, y: string, pat: string, from: nat)
    requires from <= |y|
    ensures Find(x + y, pat, |x| + from) == if Find(y, pat, from) == -1 then -1 else |x| + Find(y, pat, from)
  {
    var r := Find(y, pat, from);
    forall i: nat | |x| + from <= i ensures MatchAt(x + y, pat, i) == MatchAt(y, pat, i - |x|) {
      MatchInSuffix(x, y, pat, i);
    }
    if r == -1 {
      FindIsNone(x + y, pat, |x| + from);
    } else {
      assert MatchAt(x + y, pat, |x| + r);
      FindIs(x + y, pat, |x| + from, |x| + r);
    }
  }

  // ---------------------------------------------------------------- receiving

  datatype Received = Received(frames: seq<string>, rest: string)

  /** Where the first complete frame ends, or -1: eight characters past the trailer's start. */
  function FrameEnd(buf: string): (e: int)
    ensures e != -1 ==> 8 <= e <= |buf| && 0 <= Find(buf, MARKER, 0) <= e - 8 && MatchAt(buf, TRAILER, e - 8)
  {
    var i := Find(buf, MARKER, 0);
    if i == -1 then -1 else
    var j := Find(buf, TRAILER, i);
    if j == -1 || j + 8 > |buf| then -1 else j + 8
  }

  /** What one call of `process_buffer` hands on, and the buffer it leaves. */
  function Drain(buf: string): Received
    decreases |buf|
  {
    var i := Find(buf, MARKER, 0);
    var e := FrameEnd(buf);
    if i == -1 then Received([], "")
    else if e == -1 then Received([], buf)
    else
      var d := Drain(buf[e..]);
      Received([buf[i..e]] + d.frames, d.rest)
  }

  /** One turn of the loop of `process_buffer`. */
  lemma DrainTurn(buf: string)
    ensures var i, e, d := Find(buf, MARKER, 0), FrameEnd(buf), Drain(buf);
            if i == -1 then d == Received([], "")
            else if e == -1 then d == Received([], buf)
            else d == Received([buf[i..e]] + Drain(buf[e..]).frames, Drain(buf[e..]).rest)
  {
  }

  /** The text after the last complete frame, before `process_buffer` decides to clear it. */
  function Unframed(buf: string): string
    decreases |buf|
  {
    var e := FrameEnd(buf);
    if e == -1 then buf else Unframed(buf[e..])
  }

  lemma {:induction false} RestIsUnframed(buf: string)
    ensures Drain(buf).rest == if Find(Unframed(buf), MARKER, 0) == -1 then "" else Unframed(buf)
    ensures FrameEnd(Unframed(buf)) == -1
    decreases |buf|
  {
    if FrameEnd(buf) != -1 {
      RestIsUnframed(buf[FrameEnd(buf)..]);
    }
  }

  /** The text from the first marker on; what comes before it can never reach a frame. */
  function FromMarker(s: string): string {
    var i := Find(s, MARKER, 0);
    if i == -1 then "" else s[i..]
  }

  /** Same frames so far, and buffers that differ at most in junk before the first marker. */
  ghost predicate Same(a: Received, b: Received) {
    a.frames == b.frames && FromMarker(a.rest) == FromMarker(b.rest)
  }

  /** Receiving `y` after `x` has been processed. */
  function FeedAfter(before: Received, y: string): Received {
    var d := Drain(before.rest + y);
    Received(before.frames + d.frames, d.rest)
  }

  /** A marker of the joined text starts in `t`. */
  ghost predicate Straddles(t: string, y: string) {
    exists i: nat :: i < |t| && MatchAt(t + y, MARKER, i)
  }

  /** The cut after `x` destroys a marker: what is left of `x` holds no marker, so it is
      thrown away, yet a marker of the stream begins in it. */
  ghost predicate CutLosesMarker(x: string, y: string) {
    Find(Unframed(x), MARKER, 0) == -1 && Straddles(Unframed(x), y)
  }

  /** A complete first frame is not affected by what arrives later. */
  lemma FirstFrameStable(x: string, y: string)
    requires FrameEnd(x) != -1
    ensures FrameEnd(x + y) == FrameEnd(x)
    ensures Find(x + y, MARKER, 0) == Find(x, MARKER, 0)
  {
    FindExtend(x, y, MARKER, 0);
    FindExtend(x, y, TRAILER, Find(x, MARKER, 0));
  }

  lemma DrainFirst(x: string, y: string, i: nat, e: nat)
    requires FrameEnd(x) == e && Find(x, MARKER, 0) == i
    ensures i <= e <= |x|
    ensures Drain(x) == Received([x[i..e]] + Drain(x[e..]).frames, Drain(x[e..]).rest)
    ensures Drain(x + y) == Received([x[i..e]] + Drain(x[e..] + y).frames, Drain(x[e..] + y).rest)
  {
    FirstFrameStable(x, y);
    assert (x + y)[i..e] == x[i..e];
    assert (x + y)[e..] == x[e..] + y;
  }

  lemma Prepend(f: string, a: Received, b: Received)
    ensures Same(Received([f] + a.frames, a.rest), Received([f] + b.frames, b.rest)) <==> Same(a, b)
  {
    if [f] + a.frames == [f] + b.frames {
      assert a.frames == ([f] + a.frames)[1..];
      assert b.frames == ([f] + b.frames)[1..];
    }
  }

  /** Frames already complete in `x` can be set aside when two deliveries are compared. */
  lemma PeelFrame(x: string, y: string, i: nat, e: nat)
    requires FrameEnd(x) == e && Find(x, MARKER, 0) == i
    ensures i <= e <= |x|
    ensures Same(Drain(x + y), FeedAfter(Drain(x), y))
      <==> Same(Drain(x[e..] + y), FeedAfter(Drain(x[e..]), y))
  {
    hide Drain, FrameEnd, Find, FromMarker;
    DrainFirst(x, y, i, e);
    var f := FeedAfter(Drain(x[e..]), y);
    assert FeedAfter(Drain(x), y) == Received([x[i..e]] + f.frames, f.rest);
    Prepend(x[i..e], Drain(x[e..] + y), f);
  }

  /** Cutting the stream changes neither the frames nor what can still become one, unless
      the cut destroys a marker. */
  lemma {:induction false} CutHarmless(x: string, y: string)
    requires !CutLosesMarker(x, y)
    ensures Same(Drain(x + y), FeedAfter(Drain(x), y))
    decreases |x|
  {
    var i, e := Find(x, MARKER, 0), FrameEnd(x);
    if e != -1 {
      PeelFrame(x, y, i, e);
      CutHarmless(x[e..], y);
    } else {
      CutUnframed(x, y);
      if i == -1 {
        DrainDropsJunk(x, y);
      }
    }
  }

  lemma CutUnframed(x: string, y: string)
    requires FrameEnd(x) == -1
    ensures Find(x, MARKER, 0) == -1 ==> FeedAfter(Drain(x), y) == Drain(y)
    ensures Find(x, MARKER, 0) != -1 ==> FeedAfter(Drain(x), y) == Drain(x + y)
  {
    assert "" + y == y;
    assert [] + Drain(y).frames == Drain(y).frames;
    assert [] + Drain(x + y).frames == Drain(x + y).frames;
  }

  lemma FirstFrameAfterJunk(x: string, y: string)
    requires !Straddles(x, y)
    ensures Find(x + y, MARKER, 0) == if Find(y, MARKER, 0) == -1 then -1 else |x| + Find(y, MARKER, 0)
    ensures FrameEnd(x + y) == if FrameEnd(y) == -1 then -1 else |x| + FrameEnd(y)
  {
    FindSkip(x, y, MARKER);
    if Find(y, MARKER, 0) != -1 {
      FindShift(x, y, TRAILER, Find(y, MARKER, 0));
    }
  }

  /** Junk in front of a stream that forms no marker with it is harmless. */
  lemma DrainDropsJunk(x: string, y: string)
    requires !Straddles(x, y)
    ensures Same(Drain(x + y), Drain(y))
  {
    hide Find;
    FirstFrameAfterJunk(x, y);
    var i, e := Find(y, MARKER, 0), FrameEnd(y);
    if e != -1 {
      assert (x + y)[|x| + i..|x| + e] == y[i..e];
      assert (x + y)[|x| + e..] == y[e..];
    } else if i != -1 {
      assert (x + y)[|x| + i..] == y[i..];
    }
  }

  // ---------------------------------------------------------------- the cut that does harm

  /** No marker begins in the four characters a frame takes after a trailer tag. Every
      trailer of the standard, three digits and a delimiter, is like this. */
  ghost predicate ProperTrailers(s: string) {
    forall j: nat, i: nat :: MatchAt(s, TRAILER, j) && MatchAt(s, MARKER, i) ==> !(j + 4 <= i < j + 8)
  }

  lemma {:induction false} RestIsShort(s: string)
    ensures |FromMarker(Drain(s).rest)| <= |Drain(s).rest| <= |s|
    decreases |s|
  {
    if FrameEnd(s) != -1 {
      RestIsShort(s[FrameEnd(s)..]);
    }
  }

  /** When the destroyed marker's frame is still open, the two buffers differ. */
  lemma OpenFrameLost(x: string, y: string)
    requires Find(x + y, MARKER, 0) != -1 && Find(x + y, MARKER, 0) < |x|
    requires FrameEnd(x + y) == -1
    ensures !Same(Drain(x + y), Drain(y))
  {
    RestIsShort(y);
    assert |FromMarker(x + y)| > |y|;
  }

  /** When that frame is complete, it is lost or it loses its beginning. */
  lemma CompleteFrameLost(x: string, y: string, e: nat)
    requires 0 <= Find(x + y, MARKER, 0) < |x|
    requires FrameEnd(x + y) == e && e >= |x|
    requires ProperTrailers(x + y)
    ensures Drain(x + y).frames != Drain(y).frames
  {
    hide Drain, FrameEnd, Find, ProperTrailers, MatchAt;
    var i := Find(x + y, MARKER, 0);
    var m := Find(y, MARKER, 0);
    FirstFrame(x + y, i, e);
    if m == -1 {
      NoFrame(y);
    } else {
      MatchInSuffix(x, y, MARKER, |x| + m);
      if |x| + m >= e {
        LaterMarker(x, y, e);
      } else {
        MatchChar(x + y, MARKER, |x| + m, 0);
        MarkerBeforeTrailer(x + y, e - 8, |x| + m);
        EarlierMarker(x, y, e, m);
        FirstFrame(y, m, e - |x|);
      }
    }
  }

  lemma NoFrame(s: string)
    requires Find(s, MARKER, 0) == -1
    ensures Drain(s).frames == []
  {
  }

  lemma FirstFrame(s: string, i: nat, e: nat)
    requires Find(s, MARKER, 0) == i && FrameEnd(s) == e
    ensures i <= e <= |s| && Drain(s).frames == [s[i..e]] + Drain(s[e..]).frames
    ensures |Drain(s).frames[0]| == e - i
  {
  }

  lemma MarkerBeforeTrailer(s: string, j: nat, i: nat)
    requires MatchAt(s, TRAILER, j) && MatchAt(s, MARKER, i) && i < j + 8 && ProperTrailers(s)
    ensures i < j
  {
    if j <= i < j + 4 {
      MatchChar(s, MARKER, i, 0);
      MatchChar(s, TRAILER, j, i - j);
    }
  }

  lemma LaterMarker(x: string, y: string, e: nat)
    requires FrameEnd(x + y) == e && |x| <= e <= |x + y|
    requires |x| + Find(y, MARKER, 0) >= e
    ensures Drain((x + y)[e..]).frames == Drain(y).frames
  {
    var a, b := y[..e - |x|], y[e - |x|..];
    assert y == a + b;
    assert (x + y)[e..] == b;
    assert !Straddles(a, b);
    DrainDropsJunk(a, b);
  }

  lemma EarlierMarker(x: string, y: string, e: nat, m: nat)
    requires FrameEnd(x + y) == e
    requires Find(x + y, MARKER, 0) < |x| && Find(y, MARKER, 0) == m && |x| + m < e - 8
    ensures FrameEnd(y) == e - |x|
  {
    FindShift(x, y, TRAILER, m);
    FindIs(x + y, TRAILER, |x| + m, e - 8);
  }

  /** The other half of `CutHarmless`: on a stream with proper trailers a cut that destroys
      a marker always changes what is received. */
  lemma {:induction false} CutHarmful(x: string, y: string)
    requires ProperTrailers(x + y)
    requires CutLosesMarker(x, y)
    ensures !Same(Drain(x + y), FeedAfter(Drain(x), y))
    decreases |x|
  {
    var i, e := Find(x, MARKER, 0), FrameEnd(x);
    if e != -1 {
      PeelFrame(x, y, i, e);
      ProperSuffix(x, y, e);
      CutHarmful(x[e..], y);
    } else {
      CutUnframed(x, y);
      StraddleHarmful(x, y);
    }
  }

  /** On a stream with proper trailers, cutting after `x` is harmless exactly when it
      destroys no marker. */
  lemma CutExact(x: string, y: string)
    requires ProperTrailers(x + y)
    ensures Same(Drain(x + y), FeedAfter(Drain(x), y)) <==> !CutLosesMarker(x, y)
  {
    if CutLosesMarker(x, y) {
      CutHarmful(x, y);
    } else {
      CutHarmless(x, y);
    }
  }

  lemma ProperSuffix(x: string, y: string, e: nat)
    requires ProperTrailers(x + y) && e <= |x|
    ensures ProperTrailers(x[e..] + y)
  {
    var a, b := x[..e], x[e..] + y;
    assert x + y == a + b;
    forall j: nat, i: nat | MatchAt(b, TRAILER, j) && MatchAt(b, MARKER, i) ensures !(j + 4 <= i < j + 8) {
      MatchInSuffix(a, b, TRAILER, e + j);
      MatchInSuffix(a, b, MARKER, e + i);
    }
  }

  lemma StraddleHarmful(x: string, y: string)
    requires ProperTrailers(x + y)
    requires Find(x, MARKER, 0) == -1 && Straddles(x, y)
    ensures !Same(Drain(x + y), Drain(y))
  {
    var i := Find(x + y, MARKER, 0);
    if i + 5 <= |x| {
      MatchInPrefix(x, y, MARKER, i);
    }
    if FrameEnd(x + y) == -1 {
      OpenFrameLost(x, y);
    } else {
      CompleteFrameLost(x, y, FrameEnd(x + y));
    }
  }

  /** A cut inside the only marker loses the whole frame. */
  lemma CutInsideMarkerExample()
    ensures var frame := "8=FIX" + TRAILER + "128" + [SOH];
            && Drain(frame) == Received([frame], "")
            && FeedAfter(Drain(frame[..3]), frame[3..]) == Received([], "")
  {
    var frame := "8=FIX" + TRAILER + "128" + [SOH];
    var back := "IX" + TRAILER + "128" + [SOH];
    FindIs(frame, MARKER, 0, 0);
    forall i: nat | i < 5 ensures !MatchAt(frame, TRAILER, i) {
      NoMatch(frame, TRAILER, i, 0);
    }
    assert frame[5..9] == TRAILER;
    FindIs(frame, TRAILER, 0, 5);
    assert frame[13..] == "" && frame[0..13] == frame;
    FindIsNone("8=F", MARKER, 0);
    forall i: nat ensures !MatchAt(back, MARKER, i) {
      NoMatch(back, MARKER, i, 0);
    }
    FindIsNone(back, MARKER, 0);
    assert frame[..3] == "8=F" && "" + frame[3..] == back;
  }

  /** Without proper trailers a cut that destroys a marker can go unnoticed: the next marker
      begins inside the first frame's trailer and ends an equal frame. */
  lemma ImproperTrailerExample()
    ensures var y := "=FIX" + TRAILER + "8=FIX" + TRAILER + "8=FI";
            CutLosesMarker("8", y) && Same(Drain("8" + y), FeedAfter(Drain("8"), y))
  {
    var frame, tail, skipped := "8=FIX" + TRAILER + "8=FI", "X" + TRAILER + "8=FI", "=FIX" + TRAILER;
    var y := "=FIX" + TRAILER + "8=FIX" + TRAILER + "8=FI";
    assert "8" + y == frame + tail && y == skipped + frame;
    NoMarkerIn("8");
    NoMarkerIn(tail);
    FrameAlone(frame);
    hide Drain, Find, TRAILER, Unframed, FrameEnd, MatchAt;
    OverlappedFrame("8", y, frame, tail, skipped);
  }

  lemma OverlappedFrame(x: string, y: string, frame: string, tail: string, skipped: string)
    requires x + y == frame + tail && y == skipped + frame && |frame| > |x|
    requires Drain(x) == Received([], "") && Unframed(x) == x && Find(x, MARKER, 0) == -1
    requires Drain(tail) == Received([], "")
    requires Find(frame, MARKER, 0) == 0 && FrameEnd(frame) == |frame|
    requires |x| > 0 && forall i :: 0 <= i < |skipped| ==> skipped[i] != '8'
    ensures CutLosesMarker(x, y) && Same(Drain(x + y), FeedAfter(Drain(x), y))
  {
    DrainFirst(frame, tail, 0, |frame|);
    FirstFrameStable(frame, tail);
    DrainFirst(frame, "", 0, |frame|);
    forall i: nat | i < |skipped| ensures !MatchAt(skipped + frame, MARKER, i) {
      NoMatch(skipped + frame, MARKER, i, 0);
    }
    assert !Straddles(skipped, frame);
    DrainDropsJunk(skipped, frame);
    assert MatchAt(x + y, MARKER, 0);
    assert frame[|frame|..] == "" && "" + tail == tail && "" + "" == "" && frame + "" == frame && "" + y == y;
    NoMarkerIn("");
    hide MatchAt, Straddles, Drain, Find, Unframed, FrameEnd, FromMarker;
  }

  lemma NoMarkerIn(s: string)
    requires |s| < 5 || forall i :: 0 <= i < |s| - 4 ==> s[i] != '8'
    ensures Find(s, MARKER, 0) == -1 && Drain(s) == Received([], "") && Unframed(s) == s
  {
    forall i: nat ensures !MatchAt(s, MARKER, i) {
      NoMatch(s, MARKER, i, 0);
    }
    FindIsNone(s, MARKER, 0);
  }

  lemma FrameAlone(frame: string)
    requires frame == "8=FIX" + TRAILER + "8=FI"
    ensures Find(frame, MARKER, 0) == 0 && FrameEnd(frame) == |frame|
  {
    FindIs(frame, MARKER, 0, 0);
    forall i: nat | i < 5 ensures !MatchAt(frame, TRAILER, i) {
      NoMatch(frame, TRAILER, i, 0);
    }
    assert frame[5..9] == TRAILER;
    FindIs(frame, TRAILER, 0, 5);
  }

  // ---------------------------------------------------------------- any number of chunks

  function Concat(chunks: seq<string>): string {
    if chunks == [] then "" else Concat(chunks[..|chunks| - 1]) + chunks[|chunks| - 1]
  }

  /** The receiver's history: each chunk is appended to the buffer and the buffer processed. */
  function FeedAll(chunks: seq<string>): Received {
    if chunks == [] then Received([], "")
    else FeedAfter(FeedAll(chunks[..|chunks| - 1]), chunks[|chunks| - 1])
  }

  /** No marker of the stream has a cut strictly inside it. */
  ghost predicate CleanCuts(chunks: seq<string>) {
    forall k: nat, i: nat :: k <= |chunks| && MatchAt(Concat(chunks), MARKER, i) ==>
      !(i < |Concat(chunks[..k])| < i + |MARKER|)
  }

  lemma {:induction false} UnframedIsSuffix(x: string)
    ensures |Unframed(x)| <= |x| && x[|x| - |Unframed(x)|..] == Unframed(x)
    decreases |x|
  {
    var e := FrameEnd(x);
    if e != -1 {
      UnframedIsSuffix(x[e..]);
      assert x[e..][|x[e..]| - |Unframed(x)|..] == x[|x| - |Unframed(x)|..];
    }
  }

  /** A cut that destroys a marker is strictly inside one. */
  lemma LosingCutIsInside(x: string, y: string)
    requires CutLosesMarker(x, y)
    ensures exists i: nat :: MatchAt(x + y, MARKER, i) && i < |x| < i + |MARKER|
  {
    var t := Unframed(x);
    var i: nat :| i < |t| && MatchAt(t + y, MARKER, i);
    UnframedIsSuffix(x);
    hide *;
    var a := x[..|x| - |t|];
    assert x + y == a + (t + y);
    MatchInSuffix(a, t + y, MARKER, |a| + i);
    if i + 5 <= |t| {
      MatchInPrefix(t, y, MARKER, i);
    }
    assert MatchAt(x + y, MARKER, |a| + i);
  }

  lemma CleanPrefix(chunks: seq<string>)
    requires CleanCuts(chunks) && chunks != []
    ensures CleanCuts(chunks[..|chunks| - 1])
    ensures !CutLosesMarker(Concat(chunks[..|chunks| - 1]), chunks[|chunks| - 1])
  {
    var init, last := chunks[..|chunks| - 1], chunks[|chunks| - 1];
    assert Concat(chunks) == Concat(init) + last;
    assert chunks[..|init|] == init;
    if CutLosesMarker(Concat(init), last) {
      LosingCutIsInside(Concat(init), last);
    }
    forall k: nat, i: nat | k <= |init| && MatchAt(Concat(init), MARKER, i)
      ensures !(i < |Concat(init[..k])| < i + |MARKER|)
    {
      MatchInPrefix(Concat(init), last, MARKER, i);
      assert MatchAt(Concat(chunks), MARKER, i);
      assert init[..k] == chunks[..k];
    }
  }

  /** Buffers left by `process_buffer` that agree from the marker on receive alike. */
  lemma FeedSame(a: Received, b: Received, y: string)
    requires Same(a, b)
    requires Find(a.rest, MARKER, 0) == -1 ==> a.rest == ""
    requires Find(b.rest, MARKER, 0) == -1 ==> b.rest == ""
    ensures Same(FeedAfter(a, y), FeedAfter(b, y))
  {
    if FromMarker(a.rest) != "" {
      FeedFromMarker(a.rest, y);
      FeedFromMarker(b.rest, y);
    }
  }

  lemma FeedFromMarker(s: string, y: string)
    requires Find(s, MARKER, 0) != -1
    ensures Same(Drain(s + y), Drain(FromMarker(s) + y))
  {
    var i := Find(s, MARKER, 0);
    var a, m := s[..i], s[i..];
    assert s + y == a + (m + y);
    forall k: nat | k < i ensures !MatchAt(a + (m + y), MARKER, k) {
      MatchInPrefix(s, y, MARKER, k);
    }
    DrainDropsJunk(a, m + y);
  }

  lemma RestWithoutMarkerIsEmpty(x: string)
    ensures Find(Drain(x).rest, MARKER, 0) == -1 ==> Drain(x).rest == ""
  {
    RestIsUnframed(x);
  }

  lemma RestOfFeed(chunks: seq<string>)
    ensures Find(FeedAll(chunks).rest, MARKER, 0) == -1 ==> FeedAll(chunks).rest == ""
  {
    if chunks != [] {
      var n := |chunks| - 1;
      RestWithoutMarkerIsEmpty(FeedAll(chunks[..n]).rest + chunks[n]);
    }
  }

  /** An empty chunk would change nothing. */
  lemma FeedNothing(chunks: seq<string>)
    ensures FeedAfter(FeedAll(chunks), "") == FeedAll(chunks)
  {
    var before := FeedAll(chunks);
    if chunks != [] {
      var n := |chunks| - 1;
      var buf := FeedAll(chunks[..n]).rest + chunks[n];
      RestIsUnframed(buf);
      assert before.rest == Drain(buf).rest;
    }
    RestIsDrained(before.rest);
    assert before.rest + "" == before.rest && before.frames + [] == before.frames;
    hide FeedAll, Drain;
  }

  lemma RestIsDrained(rest: string)
    requires rest == "" || (FrameEnd(rest) == -1 && Find(rest, MARKER, 0) != -1)
    ensures Drain(rest) == Received([], rest)
  {
    if rest == "" {
      NoMarkerIn("");
    }
  }

  /** However the stream is cut into chunks, the receiver ends with the frames of the whole
      stream, as long as no cut falls strictly inside a marker. */
  lemma {:induction false} ChunkingDoesNotMatter(chunks: seq<string>)
    requires CleanCuts(chunks)
    ensures Same(FeedAll(chunks), Drain(Concat(chunks)))
    ensures FeedAll(chunks).frames == Drain(Concat(chunks)).frames
  {
    if chunks != [] {
      var init, last := chunks[..|chunks| - 1], chunks[|chunks| - 1];
      CleanPrefix(chunks);
      ChunkingDoesNotMatter(init);
      CutHarmless(Concat(init), last);
      RestOfFeed(init);
      RestWithoutMarkerIsEmpty(Concat(init));
      FeedSame(FeedAll(init), Drain(Concat(init)), last);
    }
  }
}
