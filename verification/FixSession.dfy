/** The FIX client's two ends: frames as `send_message` writes them to the socket, the
    standard's own check of a frame, and the object holding buffer and sequence number. */
module FixSession {
  import opened Numerals
  import opened FixFraming
  import opened FixReader
  import opened Options

  // ---------------------------------------------------------------- building a frame

  /** `s.replace('|', '\x01')`. */
  function Wire(s: string): (w: string)
    ensures |w| == |s|
    ensures forall i :: 0 <= i < |s| ==> w[i] == if s[i] == '|' then SOH else s[i]
  {
    seq(|s|, i requires 0 <= i < |s| => if s[i] == '|' then SOH else s[i])
  }

  /** `sum(ord(char) for char in s)`. */
  function ByteSum(s: string): nat {
    if s == [] then 0 else ByteSum(s[..|s| - 1]) + s[|s| - 1] as int
  }

  /** The `:03` format of a checksum. */
  function ThreeDigits(n: nat): (s: string)
    requires n < 1000
    ensures |s| == 3 && AllDigits(s)
  {
    [Digit(n / 100), Digit(n / 10 % 10), Digit(n % 10)]
  }

  /** The message with its header, still with '|' delimiters. */
  function Headed(message: string): string {
    "8=FIX.4.4|9=" + Decimal(|message|) + "|" + message
  }

  /** The characters `send_message` writes to the socket. */
  function Frame(message: string): string {
    var checksum := ByteSum(Wire(Headed(message))) % 256;
    Wire(Headed(message) + "10=" + ThreeDigits(checksum) + "|")
  }

  const HEAD: string := "8=FIX.4.4" + [SOH] + "9="

  function Checksum(message: string): (c: nat)
    ensures c < 256
  {
    ByteSum(Wire(Headed(message))) % 256
  }

  /** Header, length, body and trailer of a sent frame. */
  lemma FrameParts(message: string)
    ensures Wire(Headed(message)) == HEAD + Decimal(|message|) + [SOH] + Wire(message)
    ensures Frame(message) == Wire(Headed(message)) + "10=" + ThreeDigits(Checksum(message)) + [SOH]
  {
    hide Wire, ByteSum, Decimal, ThreeDigits;
    HeadedParts(message, Decimal(|message|));
    TrailerParts(Headed(message), ThreeDigits(Checksum(message)));
  }

  lemma HeadedParts(message: string, len: string)
    requires AllDigits(len)
    ensures Wire("8=FIX.4.4|9=" + len + "|" + message) == HEAD + len + [SOH] + Wire(message)
  {
    WireConcat("8=FIX.4.4|9=", len);
    WireConcat("8=FIX.4.4|9=" + len, "|");
    WireConcat("8=FIX.4.4|9=" + len + "|", message);
    assert Wire("8=FIX.4.4|9=") == HEAD;
    WireDigits(len);
    assert Wire("|") == [SOH];
  }

  lemma TrailerParts(headed: string, chk: string)
    requires AllDigits(chk)
    ensures Wire(headed + "10=" + chk + "|") == Wire(headed) + "10=" + chk + [SOH]
  {
    WireConcat(headed, "10=");
    WireConcat(headed + "10=", chk);
    WireConcat(headed + "10=" + chk, "|");
    assert Wire("10=") == "10=" && Wire("|") == [SOH];
    WireDigits(chk);
  }

  lemma WireConcat(a: string, b: string)
    ensures Wire(a + b) == Wire(a) + Wire(b)
  {
  }

  lemma WireDigits(s: string)
    requires AllDigits(s)
    ensures Wire(s) == s
  {
  }

  // ---------------------------------------------------------------- the standard's check

  /** Reads a frame the way section "Standard Message Header" and section "CheckSum
      Calculation" of FIX 4.4 ask for: tag 9 counts the characters from after its own
      delimiter up to and including the one before tag 10, and tag 10 is three digits
      equal to the sum of all characters before it modulo 256. Gives the body. */
  function Unpack(f: string): (body: string)
    requires Authentic(f)
  {
    f[BodyStart(f)..|f| - 7]
  }

  function BodyStart(f: string): (b: nat)
    requires |HEAD| <= |f| && Find(f, [SOH], |HEAD|) != -1
    ensures |HEAD| < b <= |f|
  {
    Find(f, [SOH], |HEAD|) + 1
  }

  predicate Authentic(f: string) {
    && HEAD <= f
    && Find(f, [SOH], |HEAD|) != -1
    && var b, t := BodyStart(f), |f| - 7;
      && b <= t
      && AllDigits(f[|HEAD|..b - 1])
      && Value(f[|HEAD|..b - 1]) == t - b
      && f[t..t + 3] == "10="
      && AllDigits(f[t + 3..t + 6])
      && Value(f[t + 3..t + 6]) == ByteSum(f[..t]) % 256
      && f[t + 6] == SOH
  }

  lemma ThreeDigitsReadBack(n: nat)
    requires n < 1000
    ensures Value(ThreeDigits(n)) == n
  {
    var s := ThreeDigits(n);
    assert s[..2] == [s[0], s[1]] && s[..2][..1] == [s[0]] && s[..2][..1][..0] == [];
    assert Value([s[0]]) == n / 100;
    assert Value(s[..2]) == 10 * Value([s[0]]) + n / 10 % 10;
  }

  /** Every message, whatever it contains, is sent as a frame the standard accepts, of version
      4.4, and the standard reads back exactly that message. */
  lemma SentFrameIsAuthentic(message: string)
    ensures Authentic(Frame(message)) && "8=FIX.4.4" + [SOH] + "9=" <= Frame(message)
    ensures Unpack(Frame(message)) == Wire(message)
  {
    var f, len := Frame(message), Decimal(|message|);
    var chk := ThreeDigits(Checksum(message));
    FrameParts(message);
    ThreeDigitsReadBack(Checksum(message));
    ReadBack(|message|);
    hide Authentic, ByteSum, Decimal, Value, Headed, Frame, ThreeDigits;
    LaidOutIsAuthentic(f, len, Wire(message), chk);
  }

  /** A character string laid out as a frame, with the right numbers. */
  lemma LaidOutIsAuthentic(f: string, len: string, w: string, chk: string)
    requires f == HEAD + len + [SOH] + w + "10=" + chk + [SOH] && |chk| == 3
    requires AllDigits(len) && Value(len) == |w|
    requires AllDigits(chk) && Value(chk) == ByteSum(HEAD + len + [SOH] + w) % 256
    ensures Authentic(f)
    ensures Unpack(f) == w
  {
    FrameSlices(f, len, w, chk);
    hide Authentic, ByteSum, Value;
    SlicedIsAuthentic(f, len, w, chk);
  }

  lemma SlicedIsAuthentic(f: string, len: string, w: string, chk: string)
    requires HEAD <= f && |f| >= 7 && |HEAD| + |len| < |f| - 7
    requires var d, t := |HEAD| + |len|, |f| - 7;
             && f[|HEAD|..d] == len && f[d] == SOH && f[d + 1..t] == w
             && f[t..t + 3] == "10=" && f[t + 3..t + 6] == chk && f[t + 6] == SOH
             && AllDigits(chk) && Value(chk) == ByteSum(f[..t]) % 256
    requires AllDigits(len) && Value(len) == |w|
    ensures Authentic(f)
    ensures Unpack(f) == w
  {
    FindFirstDelimiter(f, len);
    hide Find, ByteSum, Value;
  }

  /** The slices of a character string laid out as a frame. */
  lemma FrameSlices(f: string, len: string, w: string, chk: string)
    requires f == HEAD + len + [SOH] + w + "10=" + chk + [SOH] && |chk| == 3
    ensures HEAD <= f
    ensures var d, t := |HEAD| + |len|, |f| - 7;
            && d < t
            && f[|HEAD|..d] == len && f[d] == SOH && f[d + 1..t] == w
            && f[t..t + 3] == "10=" && f[t + 3..t + 6] == chk && f[t + 6] == SOH
            && f[..t] == HEAD + len + [SOH] + w
  {
    var d, t := |HEAD| + |len|, |f| - 7;
    assert f[|HEAD|..d] == len;
    assert f[d + 1..t] == w;
    assert f[t..t + 3] == "10=";
    assert f[t + 3..t + 6] == chk;
  }

  lemma FindFirstDelimiter(f: string, len: string)
    requires AllDigits(len) && |HEAD| + |len| < |f|
    requires f[|HEAD|..|HEAD| + |len|] == len && f[|HEAD| + |len|] == SOH
    ensures Find(f, [SOH], |HEAD|) == |HEAD| + |len|
  {
    var d := |HEAD| + |len|;
    forall i: nat | |HEAD| <= i < d ensures !MatchAt(f, [SOH], i) {
      assert f[i] == len[i - |HEAD|];
      NoMatch(f, [SOH], i, 0);
    }
    assert f[d..d + 1] == [SOH];
    FindIs(f, [SOH], |HEAD|, d);
  }

  // ---------------------------------------------------------------- sent frames received

  /** The body, with the delimiter before it, ends in a delimiter and holds no trailer tag. */
  predicate Clean(message: string) {
    var b := [SOH] + Wire(message);
    b[|b| - 1] == SOH && Find(b, TRAILER, 0) == -1
  }

  /** Where a sent frame starts and what surrounds its body. */
  lemma FrameAround(message: string, after: string)
    ensures var h, b := HEAD + Decimal(|message|), [SOH] + Wire(message);
            Frame(message) + after == h + (b + ("10=" + ThreeDigits(Checksum(message)) + [SOH] + after))
    ensures Find(Frame(message) + after, MARKER, 0) == 0
  {
    FrameParts(message);
    var s := Frame(message) + after;
    assert s[0..5] == MARKER;
    FindIs(s, MARKER, 0, 0);
  }

  /** No trailer tag begins in the header. */
  lemma NoTrailerInHead(message: string, rest: string, i: nat)
    requires i < |HEAD + Decimal(|message|)|
    requires |rest| > 0
    ensures !MatchAt(HEAD + Decimal(|message|) + rest, TRAILER, i)
  {
    var h := HEAD + Decimal(|message|);
    var s := h + rest;
    assert s[i] == h[i];
    if i == 9 {
      assert s[10] == '9';
      NoMatch(s, TRAILER, i, 1);
    } else {
      assert i >= |HEAD| ==> h[i] == Decimal(|message|)[i - |HEAD|];
      NoMatch(s, TRAILER, i, 0);
    }
  }

  /** A trailer tag in body and trailer is in the body, or is the trailer itself. */
  lemma TrailerInBody(b: string, tail: string, i: nat)
    requires |b| > 0 && b[|b| - 1] == SOH
    requires "10=" <= tail
    ensures i < |b| - 1 ==> MatchAt(b + tail, TRAILER, i) == MatchAt(b, TRAILER, i)
    ensures MatchAt(b + tail, TRAILER, |b| - 1)
  {
    var s := b + tail;
    assert s[|b| - 1..|b| + 3] == TRAILER;
    if i + 4 <= |b| {
      MatchInPrefix(b, tail, TRAILER, i);
    } else if i < |b| - 1 {
      assert s[i + (|b| - 1 - i)] == SOH;
      NoMatch(s, TRAILER, i, |b| - 1 - i);
      NoMatch(b, TRAILER, i, 0);
    }
  }

  /** The receiver ends the first frame where the sender did exactly for clean messages. */
  lemma FrameEndExact(message: string, after: string)
    ensures FrameEnd(Frame(message) + after) == |Frame(message)| <==> Clean(message)
  {
    var h, b := HEAD + Decimal(|message|), [SOH] + Wire(message);
    var tail := "10=" + ThreeDigits(Checksum(message)) + [SOH] + after;
    FrameAround(message, after);
    FrameAround(message, "");
    assert Frame(message) + "" == Frame(message);
    assert |Frame(message)| == |h| + |b| + 7;
    if Clean(message) {
      CleanFrameEnd(message, Frame(message) + after, h, b, tail);
    }
    if FrameEnd(Frame(message) + after) == |Frame(message)| {
      FrameEndClean(message, Frame(message) + after, h, b, tail);
    }
    hide Frame, FrameEnd, Clean, Decimal, ThreeDigits, Wire;
  }

  lemma CleanFrameEnd(message: string, s: string, h: string, b: string, tail: string)
    requires h == HEAD + Decimal(|message|) && b == [SOH] + Wire(message) && s == h + (b + tail)
    requires "10=" <= tail && |tail| >= 7 && Find(s, MARKER, 0) == 0 && Clean(message)
    ensures FrameEnd(s) == |h| + |b| + 7
  {
    var j := |h| + |b| - 1;
    forall i: nat | i < j ensures !MatchAt(s, TRAILER, i) {
      if i < |h| {
        NoTrailerInHead(message, b + tail, i);
      } else {
        MatchInSuffix(h, b + tail, TRAILER, i);
        TrailerInBody(b, tail, i - |h|);
      }
    }
    TrailerInBody(b, tail, |b| - 1);
    MatchInSuffix(h, b + tail, TRAILER, j);
    FindIs(s, TRAILER, 0, j);
    hide MatchAt, Decimal, Wire;
  }

  lemma FrameEndClean(message: string, s: string, h: string, b: string, tail: string)
    requires h == HEAD + Decimal(|message|) && b == [SOH] + Wire(message) && s == h + (b + tail)
    requires Find(s, MARKER, 0) == 0 && FrameEnd(s) == |h| + |b| + 7
    ensures Clean(message)
  {
    var j := |h| + |b| - 1;
    TrailerOfFrame(s);
    hide FrameEnd, Decimal, Wire, MatchAt;
    MatchChar(s, TRAILER, j, 0);
    assert s[j] == b[|b| - 1];
    forall i: nat ensures !MatchAt(b, TRAILER, i) {
      NoTrailerBefore(h, b, tail, i);
    }
    FindIsNone(b, TRAILER, 0);
  }

  lemma TrailerOfFrame(s: string)
    requires Find(s, MARKER, 0) == 0 && FrameEnd(s) != -1
    ensures Find(s, TRAILER, 0) == FrameEnd(s) - 8 && MatchAt(s, TRAILER, FrameEnd(s) - 8)
  {
    hide Find, MatchAt;
  }

  /** A trailer tag inside b would be found before its last character. */
  lemma NoTrailerBefore(h: string, b: string, tail: string, i: nat)
    requires |b| > 0 && Find(h + (b + tail), TRAILER, 0) == |h| + |b| - 1
    ensures !MatchAt(b, TRAILER, i)
  {
    if MatchAt(b, TRAILER, i) {
      assert i + |TRAILER| <= |b|;
      hide MatchAt;
      MatchInPrefix(b, tail, TRAILER, i);
      MatchInSuffix(h, b + tail, TRAILER, |h| + i);
    }
  }

  function Frames(messages: seq<string>): seq<string> {
    if messages == [] then [] else [Frame(messages[0])] + Frames(messages[1..])
  }

  /** What the socket has carried after these messages were sent in order. */
  function Stream(messages: seq<string>): string {
    if messages == [] then "" else Frame(messages[0]) + Stream(messages[1..])
  }

  /** Received in one piece, the messages' frames come back one by one, in order and with
      nothing left over, exactly when every message is clean. */
  lemma {:induction false} SentIsReceived(messages: seq<string>)
    ensures Drain(Stream(messages)) == Received(Frames(messages), "")
      <==> forall m :: m in messages ==> Clean(m)
  {
    if messages == [] {
      FindIsNone("", MARKER, 0);
    } else {
      SentIsReceived(messages[1..]);
      FirstSentFrame(messages[0], Stream(messages[1..]));
      FrameNonEmpty(messages[0]);
      if Clean(messages[0]) {
        PrependFrame(Frame(messages[0]), Drain(Stream(messages[1..])), Frames(messages[1..]));
        assert forall m :: m in messages <==> m == messages[0] || m in messages[1..];
      }
    }
  }

  lemma PrependFrame(f: string, d: Received, fs: seq<string>)
    ensures Received([f] + d.frames, d.rest) == Received([f] + fs, "") <==> d == Received(fs, "")
  {
    if [f] + d.frames == [f] + fs {
      assert d.frames == ([f] + d.frames)[1..] == fs;
    }
  }

  lemma FrameNonEmpty(message: string)
    ensures |Frame(message)| >= 7
  {
    FrameParts(message);
  }

  lemma FirstSentFrame(message: string, after: string)
    ensures var d := Drain(Frame(message) + after);
            if Clean(message) then
              d == Received([Frame(message)] + Drain(after).frames, Drain(after).rest)
            else
              (d.frames == [] && d.rest != "") || (d.frames != [] && d.frames[0] != Frame(message))
  {
    var s := Frame(message) + after;
    FrameEndExact(message, after);
    FrameAround(message, after);
    var e := FrameEnd(s);
    if Clean(message) {
      assert s[0..e] == Frame(message) && s[e..] == after;
    } else if e != -1 {
      FirstFrame(s, 0, e);
      assert |Drain(s).frames[0]| != |Frame(message)|;
    } else {
      FrameNonEmpty(message);
    }
  }

  /** End to end: clean messages, however the network cuts their stream, arrive as the
      frames that were sent, unless a cut falls inside a marker. */
  lemma SentIsReceivedInChunks(messages: seq<string>, chunks: seq<string>)
    requires forall m :: m in messages ==> Clean(m)
    requires Concat(chunks) == Stream(messages)
    requires CleanCuts(chunks)
    ensures FeedAll(chunks) == Received(Frames(messages), "")
  {
    SentIsReceived(messages);
    ChunkingDoesNotMatter(chunks);
    RestOfFeed(chunks);
    FindIsNone("", MARKER, 0);
  }

  /** A message that begins with tag 10 contains no "|10=" and ends in a delimiter, and
      is still cut in two: the delimiter before it is the header's. */
  lemma LeadingTrailerExample()
    ensures var m := "10=0|";
            && m[|m| - 1] == '|' && Find(m, "|10=", 0) == -1
            && Drain(Frame(m)) != Received([Frame(m)], "")
  {
    var m := "10=0|";
    forall i: nat ensures !MatchAt(m, "|10=", i) {
      NoMatch(m, "|10=", i, 0);
    }
    FindIsNone(m, "|10=", 0);
    var b := [SOH] + Wire(m);
    assert b[0..4] == TRAILER;
    assert MatchAt(b, TRAILER, 0);
    SentIsReceived([m]);
    assert m in [m] && !Clean(m);
    assert Stream([m]) == Frame(m) && Frames([m]) == [Frame(m)];
  }

  // ---------------------------------------------------------------- messages the client builds

  /** A message as the client formats it: every field is followed by the delimiter. */
  function Joined(fields: seq<string>): string {
    if fields == [] then "" else fields[0] + "|" + Joined(fields[1..])
  }

  predicate NoDelimiter(field: string) {
    '|' !in field && SOH !in field
  }

  lemma {:induction false} JoinedEndsDelimited(fields: seq<string>)
    ensures var b := [SOH] + Wire(Joined(fields)); b[|b| - 1] == SOH
  {
    if fields != [] {
      JoinedEndsDelimited(fields[1..]);
      WireConcat(fields[0] + "|", Joined(fields[1..]));
    }
  }

  /** A trailer tag among joined fields is at the start of the first one, or later on. */
  lemma TrailerAmongFields(field: string, rest: string, i: nat)
    requires NoDelimiter(field)
    ensures MatchAt([SOH] + Wire(field + "|" + rest), TRAILER, i) <==>
            if i <= |field| then i == 0 && "10=" <= field
            else MatchAt([SOH] + Wire(rest), TRAILER, i - |field| - 1)
  {
    WireConcat(field + "|", rest);
    WireConcat(field, "|");
    assert Wire(field) == field && Wire("|") == [SOH];
    var head, tail := [SOH] + field, [SOH] + Wire(rest);
    assert [SOH] + Wire(field + "|" + rest) == head + tail;
    if i > |field| {
      MatchInSuffix(head, tail, TRAILER, i);
    } else if i > 0 {
      NoMatch(head + tail, TRAILER, i, 0);
    } else if |field| < 3 {
      NoMatch(head + tail, TRAILER, 0, |field| + 1);
    } else {
      assert (head + tail)[0..4] == [SOH] + field[..3];
      assert ("10=" <= field) == (field[..3] == "10=");
      assert TRAILER[1..] == "10=" && ([SOH] + field[..3])[1..] == field[..3];
    }
  }

  /** A message built from fields without delimiters comes through exactly when none of
      its fields has tag 10. */
  lemma {:induction false} FieldsClean(fields: seq<string>)
    requires forall f :: f in fields ==> NoDelimiter(f)
    ensures Clean(Joined(fields)) <==> forall f :: f in fields ==> !("10=" <= f)
  {
    JoinedEndsDelimited(fields);
    var b := [SOH] + Wire(Joined(fields));
    if fields == [] {
      FindIsNone(b, TRAILER, 0);
    } else {
      var field, rest := fields[0], Joined(fields[1..]);
      var tail := [SOH] + Wire(rest);
      FieldsClean(fields[1..]);
      JoinedEndsDelimited(fields[1..]);
      assert forall f :: f in fields <==> f == field || f in fields[1..];
      forall i: nat ensures MatchAt(b, TRAILER, i) <==>
        if i <= |field| then i == 0 && "10=" <= field else MatchAt(tail, TRAILER, i - |field| - 1)
      {
        TrailerAmongFields(field, rest, i);
      }
      assert field in fields;
      if "10=" <= field {
        assert MatchAt(b, TRAILER, 0);
      } else if Clean(rest) {
        FindIsNone(b, TRAILER, 0);
      } else {
        assert MatchAt(b, TRAILER, Find(tail, TRAILER, 0) + |field| + 1);
      }
    }
  }

  function HeartbeatFields(sender: string, target: string, n: nat, utc: string): seq<string> {
    ["35=0", "49=" + sender, "56=" + target, "34=" + Decimal(n), "52=" + utc]
  }

  /** The heartbeats sent at these times, numbered from `n`. */
  function Heartbeats(sender: string, target: string, n: nat, times: seq<string>): seq<string>
    decreases times
  {
    if times == [] then []
    else [Joined(HeartbeatFields(sender, target, n, times[0]))] + Heartbeats(sender, target, n + 1, times[1..])
  }

  /** A run of heartbeats is received frame by frame. */
  lemma {:induction false} HeartbeatsAreReceived(sender: string, target: string, n: nat, times: seq<string>)
    requires NoDelimiter(sender) && NoDelimiter(target)
    requires forall t :: t in times ==> NoDelimiter(t)
    ensures var ms := Heartbeats(sender, target, n, times); Drain(Stream(ms)) == Received(Frames(ms), "")
  {
    HeartbeatsClean(sender, target, n, times);
    SentIsReceived(Heartbeats(sender, target, n, times));
  }

  lemma HeartbeatFieldsPlain(sender: string, target: string, n: nat, utc: string)
    requires NoDelimiter(sender) && NoDelimiter(target) && NoDelimiter(utc)
    ensures forall f :: f in HeartbeatFields(sender, target, n, utc) ==> NoDelimiter(f) && !("10=" <= f)
  {
    var fields := HeartbeatFields(sender, target, n, utc);
    NoDelimiterConcat("49=", sender);
    NoDelimiterConcat("56=", target);
    NoDelimiterConcat("34=", Decimal(n));
    NoDelimiterConcat("52=", utc);
    assert forall i :: 0 <= i < 5 ==> NoDelimiter(fields[i]) && fields[i][0] != '1';
  }

  lemma NoDelimiterConcat(a: string, b: string)
    requires NoDelimiter(a) && (NoDelimiter(b) || AllDigits(b))
    ensures NoDelimiter(a + b)
  {
  }

  lemma {:induction false} HeartbeatsClean(sender: string, target: string, n: nat, times: seq<string>)
    requires NoDelimiter(sender) && NoDelimiter(target)
    requires forall t :: t in times ==> NoDelimiter(t)
    ensures forall m :: m in Heartbeats(sender, target, n, times) ==> Clean(m)
    decreases times
  {
    if times != [] {
      var fields := HeartbeatFields(sender, target, n, times[0]);
      HeartbeatFieldsPlain(sender, target, n, times[0]);
      FieldsClean(fields);
      HeartbeatsClean(sender, target, n + 1, times[1..]);
    }
  }

  // ---------------------------------------------------------------- heartbeats read back

  /** The value of the first of these fields with the tag. */
  function FieldValue(fields: seq<string>, tag: string): Option<string> {
    if fields == [] then None
    else if tag + "=" <= fields[0] then Some(fields[0][|tag| + 1..])
    else FieldValue(fields[1..], tag)
  }

  lemma {:induction false} TagOfJoined(fields: seq<string>, tag: string)
    requires forall f :: f in fields ==> NoDelimiter(f)
    ensures TagValue(Wire(Joined(fields)), tag) == FieldValue(fields, tag)
  {
    if fields == [] {
      TagOfNothing(tag);
    } else {
      var field, rest := fields[0], Joined(fields[1..]);
      TagOfJoined(fields[1..], tag);
      WireConcat(field + "|", rest);
      WireConcat(field, "|");
      assert field in fields;
      assert Wire(field) == field && Wire("|") == [SOH];
      TagOfFirst(field, Wire(rest), tag);
    }
    hide TagValue;
  }

  lemma FieldAt(fields: seq<string>, i: nat, tag: string)
    requires i < |fields| && |tag| == 2 && tag + "=" <= fields[i]
    requires forall j :: 0 <= j < i ==> |fields[j]| >= 2 && (fields[j][0] != tag[0] || fields[j][1] != tag[1])
    ensures FieldValue(fields, tag) == Some(fields[i][3..])
  {
    if i > 0 {
      var head := tag + "=";
      assert head[0] == tag[0] && head[1] == tag[1];
      assert fields[1..][i - 1] == fields[i];
      assert forall j :: 0 <= j < i - 1 ==> fields[1..][j] == fields[j + 1];
      FieldAt(fields[1..], i - 1, tag);
    }
  }

  /** The frame of a heartbeat is read back as one, by its tags alone. */
  lemma HeartbeatReads(sender: string, target: string, n: nat, utc: string)
    requires NoDelimiter(sender) && NoDelimiter(target) && NoDelimiter(utc)
    ensures var f := Frame(Joined(HeartbeatFields(sender, target, n, utc)));
            Authentic(f) && IsHeartbeat(Unpack(f), sender, target, n, utc)
  {
    var fields := HeartbeatFields(sender, target, n, utc);
    var body := Wire(Joined(fields));
    HeartbeatFieldsPlain(sender, target, n, utc);
    HeartbeatValues(sender, target, n, utc);
    ReadBack(n);
    hide *;
    SentFrameIsAuthentic(Joined(fields));
    forall tag ensures TagValue(body, tag) == FieldValue(fields, tag) {
      TagOfJoined(fields, tag);
    }
    ReadsByFields(body, fields, sender, target, n, utc);
  }

  lemma ReadsByFields(body: string, fields: seq<string>, sender: string, target: string, n: nat, utc: string)
    requires forall tag :: TagValue(body, tag) == FieldValue(fields, tag)
    requires FieldValue(fields, "35") == Some("0") && FieldValue(fields, "49") == Some(sender)
    requires FieldValue(fields, "56") == Some(target) && HasNumber(FieldValue(fields, "34"), n)
    requires FieldValue(fields, "52") == Some(utc)
    ensures IsHeartbeat(body, sender, target, n, utc)
  {
    hide TagValue, FieldValue;
  }

  lemma HeartbeatValues(sender: string, target: string, n: nat, utc: string)
    ensures var fields := HeartbeatFields(sender, target, n, utc);
            && FieldValue(fields, "35") == Some("0") && FieldValue(fields, "49") == Some(sender)
            && FieldValue(fields, "56") == Some(target) && HasNumber(FieldValue(fields, "34"), n)
            && FieldValue(fields, "52") == Some(utc)
  {
    hide Decimal, Value;
    var fields := HeartbeatFields(sender, target, n, utc);
    ReadBack(n);
    assert forall i :: 0 <= i < 5 ==> |fields[i]| >= 3;
    FieldAt(fields, 0, "35");
    FieldAt(fields, 1, "49");
    FieldAt(fields, 2, "56");
    FieldAt(fields, 3, "34");
    FieldAt(fields, 4, "52");
    hide FieldValue;
    assert fields[0][3..] == "0" && fields[1][3..] == sender && fields[2][3..] == target;
    assert fields[3][3..] == Decimal(n) && fields[4][3..] == utc;
  }

  /** These frames are heartbeats with consecutive numbers from n, one for each time. */
  ghost predicate AreHeartbeats(frames: seq<string>, sender: string, target: string, n: nat, times: seq<string>) {
    && |frames| == |times|
    && forall k :: 0 <= k < |frames| ==>
         Authentic(frames[k]) && IsHeartbeat(Unpack(frames[k]), sender, target, n + k, times[k])
  }

  lemma {:induction false} FramesRead(sender: string, target: string, n: nat, times: seq<string>)
    requires NoDelimiter(sender) && NoDelimiter(target)
    requires forall t :: t in times ==> NoDelimiter(t)
    ensures AreHeartbeats(Frames(Heartbeats(sender, target, n, times)), sender, target, n, times)
    decreases times
  {
    if times != [] {
      var message := Joined(HeartbeatFields(sender, target, n, times[0]));
      var later := Heartbeats(sender, target, n + 1, times[1..]);
      var frames := Frames(Heartbeats(sender, target, n, times));
      assert ([message] + later)[1..] == later;
      assert frames == [Frame(message)] + Frames(later);
      hide *;
      FramesRead(sender, target, n + 1, times[1..]);
      HeartbeatReads(sender, target, n, times[0]);
      OneHeartbeatMore(Frame(message), Frames(later), sender, target, n, times);
    }
  }

  lemma OneHeartbeatMore(f: string, fs: seq<string>, sender: string, target: string, n: nat, times: seq<string>)
    requires times != [] && AreHeartbeats(fs, sender, target, n + 1, times[1..])
    requires Authentic(f) && IsHeartbeat(Unpack(f), sender, target, n, times[0])
    ensures AreHeartbeats([f] + fs, sender, target, n, times)
  {
    hide Authentic, Unpack, IsHeartbeat;
    var frames := [f] + fs;
    forall k | 0 <= k < |frames|
      ensures Authentic(frames[k]) && IsHeartbeat(Unpack(frames[k]), sender, target, n + k, times[k])
    {
      if k > 0 {
        assert frames[k] == fs[k - 1] && times[k] == times[1..][k - 1];
      }
    }
  }

  /** What a receiver gets from a run of heartbeats reads as those heartbeats. */
  lemma HeartbeatsReadBack(sender: string, target: string, n: nat, times: seq<string>)
    requires NoDelimiter(sender) && NoDelimiter(target)
    requires forall t :: t in times ==> NoDelimiter(t)
    ensures var d := Drain(Stream(Heartbeats(sender, target, n, times)));
            d.rest == "" && AreHeartbeats(d.frames, sender, target, n, times)
  {
    HeartbeatsAreReceived(sender, target, n, times);
    FramesRead(sender, target, n, times);
    hide *;
  }

  // ---------------------------------------------------------------- the client object

  predicate IsAscii(s: string) {
    forall i :: 0 <= i < |s| ==> s[i] < 128 as char
  }

  lemma NoHeartbeats(sender: string, target: string, n: nat)
    ensures Stream(Heartbeats(sender, target, n, [])) == ""
  {
  }

  lemma AsciiConcat(a: string, b: string)
    ensures IsAscii(a + b) <==> IsAscii(a) && IsAscii(b)
  {
    var s := a + b;
    assert forall i :: 0 <= i < |a| ==> s[i] == a[i];
    assert forall i :: 0 <= i < |b| ==> s[|a| + i] == b[i];
  }

  lemma {:induction false} JoinedAscii(fields: seq<string>)
    ensures IsAscii(Joined(fields)) <==> forall f :: f in fields ==> IsAscii(f)
  {
    if fields != [] {
      var rest := fields[1..];
      JoinedAscii(rest);
      AsciiConcat(fields[0], "|");
      AsciiConcat(fields[0] + "|", Joined(rest));
      assert IsAscii("|");
      assert forall f :: f in fields <==> f == fields[0] || f in rest;
      hide IsAscii;
    }
  }

  lemma DigitsAscii(n: nat)
    ensures IsAscii(Decimal(n))
  {
    var d := Decimal(n);
    assert forall i :: 0 <= i < |d| ==> IsDigit(d[i]);
    hide Decimal;
  }

  /** A heartbeat is ASCII exactly when its ids and its time are. */
  lemma HeartbeatAscii(sender: string, target: string, n: nat, utc: string)
    ensures IsAscii(Joined(HeartbeatFields(sender, target, n, utc))) <==>
            IsAscii(sender) && IsAscii(target) && IsAscii(utc)
  {
    var fields := HeartbeatFields(sender, target, n, utc);
    JoinedAscii(fields);
    AsciiConcat("49=", sender);
    AsciiConcat("56=", target);
    AsciiConcat("34=", Decimal(n));
    AsciiConcat("52=", utc);
    DigitsAscii(n);
    assert IsAscii("35=0") && IsAscii("49=") && IsAscii("56=") && IsAscii("34=") && IsAscii("52=");
    hide IsAscii, Joined, Decimal;
    assert fields[0] == "35=0" && fields[1] == "49=" + sender && fields[2] == "56=" + target;
    assert fields[3] == "34=" + Decimal(n) && fields[4] == "52=" + utc;
  }

  lemma {:induction false} StreamConcat(a: seq<string>, m: string)
    ensures Stream(a + [m]) == Stream(a) + Frame(m)
  {
    hide Frame;
    if a == [] {
      assert [m][1..] == [];
    } else {
      StreamConcat(a[1..], m);
      assert (a + [m])[1..] == a[1..] + [m];
    }
  }

  lemma {:induction false} HeartbeatsSnoc(sender: string, target: string, n: nat, times: seq<string>, utc: string)
    ensures Heartbeats(sender, target, n, times + [utc])
         == Heartbeats(sender, target, n, times) + [Joined(HeartbeatFields(sender, target, n + |times|, utc))]
    decreases times
  {
    if times == [] {
      assert [utc][1..] == [];
    } else {
      HeartbeatsSnoc(sender, target, n + 1, times[1..], utc);
      assert (times + [utc])[1..] == times[1..] + [utc];
    }
  }

  class FixClient {
    const senderCompId: string
    const targetCompId: string := "SPOT"
    var msgSeqNum: nat
    var buffer: string
    var handled: seq<string>  // the frames given to handle_message, in order
    var socket: string        // the characters given to sendall, in order

    constructor (senderCompId: string)
      ensures this.senderCompId == senderCompId
      ensures msgSeqNum == 1 && buffer == "" && handled == [] && socket == ""
    {
      this.senderCompId := senderCompId;
      msgSeqNum, buffer, handled, socket := 1, "", [], "";
    }

    /** `process_buffer`. */
    method ProcessBuffer()
      modifies this`buffer, this`handled
      ensures Received(handled, buffer) == FeedAfter(Received(old(handled), old(buffer)), "")
    {
      hide Find, Drain;
      ghost var was := buffer;
      assert was + "" == was;
      while true
        invariant old(handled) + Drain(was).frames == handled + Drain(buffer).frames
        invariant Drain(was).rest == Drain(buffer).rest
        decreases |buffer|
      {
        DrainTurn(buffer);
        var start := Find(buffer, MARKER, 0);
        if start == -1 {
          buffer := "";
          return;
        }
        var end := Find(buffer, TRAILER, start);
        if end == -1 {
          return;
        }
        end := end + |TRAILER| + 4;
        if end > |buffer| {
          return;
        }
        var fullMessage := buffer[start..end];
        ghost var later := Drain(buffer[end..]).frames;
        assert handled + ([fullMessage] + later) == (handled + [fullMessage]) + later;
        buffer := buffer[end..];
        handled := handled + [fullMessage];
      }
    }

    /** One turn of `receive_orders` that got `response` from the socket. */
    method Receive(response: string)
      modifies this`buffer, this`handled
      ensures Received(handled, buffer) ==
              if response == "" then Received(old(handled), old(buffer))
              else FeedAfter(Received(old(handled), old(buffer)), response)
    {
      if response != "" {
        buffer := buffer + response;
        assert buffer + "" == buffer;
        ProcessBuffer();
      }
    }

    /** A fresh client that receives these chunks holds what `FeedAll` says. */
    method ReceiveAll(chunks: seq<string>)
      requires handled == [] && buffer == ""
      modifies this`buffer, this`handled
      ensures Received(handled, buffer) == FeedAll(chunks)
    {
      for k := 0 to |chunks|
        invariant Received(handled, buffer) == FeedAll(chunks[..k])
      {
        FeedNothing(chunks[..k]);
        Receive(chunks[k]);
        assert chunks[..k + 1][..k] == chunks[..k];
      }
      assert chunks[..|chunks|] == chunks;
    }

    /** `send_message`; it raises, before counting the message, when a character is not
        ASCII or the socket is down. */
    method SendMessage(message: string, up: bool) returns (sent: bool)
      modifies this`socket, this`msgSeqNum
      ensures sent <==> up && IsAscii(message)
      ensures socket == if sent then old(socket) + Frame(message) else old(socket)
      ensures msgSeqNum == if sent then old(msgSeqNum) + 1 else old(msgSeqNum)
    {
      var fixMessage := "8=FIX.4.4|9=" + Decimal(|message|) + "|" + message;
      var sum := SumOf(Wire(fixMessage));
      var checksum := sum % 256;
      var fullMessage := fixMessage + "10=" + ThreeDigits(checksum) + "|";
      sent := up && IsAscii(message);
      if sent {
        socket := socket + Wire(fullMessage);
        msgSeqNum := msgSeqNum + 1;
      }
    }

    /** `send_heartbeat`. */
    method SendHeartbeat(utc: string, up: bool) returns (sent: bool)
      modifies this`socket, this`msgSeqNum
      ensures sent <==> CanSend((utc, up))
      ensures var message := Joined(HeartbeatFields(senderCompId, targetCompId, old(msgSeqNum), utc));
              socket == if sent then old(socket) + Frame(message) else old(socket)
      ensures msgSeqNum == if sent then old(msgSeqNum) + 1 else old(msgSeqNum)
      ensures sent && NoDelimiter(senderCompId) && NoDelimiter(utc) ==>
                && old(socket) <= socket && Authentic(socket[|old(socket)|..])
                && IsHeartbeat(Unpack(socket[|old(socket)|..]), senderCompId, "SPOT", old(msgSeqNum), utc)
    {
      HeartbeatAscii(senderCompId, targetCompId, msgSeqNum, utc);
      if NoDelimiter(senderCompId) && NoDelimiter(utc) {
        HeartbeatReads(senderCompId, targetCompId, msgSeqNum, utc);
      }
      hide Joined, HeartbeatFields, IsAscii, Frame, Authentic, Unpack, IsHeartbeat;
      ghost var was := socket;
      sent := SendMessage(Joined(HeartbeatFields(senderCompId, targetCompId, msgSeqNum, utc)), up);
      assert sent ==>
          socket[|was|..] == Frame(Joined(HeartbeatFields(senderCompId, targetCompId, old(msgSeqNum), utc)));
    }

    /** `heartbeat_monitor`: its heartbeats carry consecutive sequence numbers, and the first
        one that cannot be sent ends the thread. */
    method HeartbeatMonitor(turns: seq<(string, bool)>) returns (times: seq<string>)
      requires socket == ""
      modifies this`socket, this`msgSeqNum
      ensures |times| <= |turns| && forall i :: 0 <= i < |times| ==> times[i] == turns[i].0
      ensures socket == Stream(Heartbeats(senderCompId, targetCompId, old(msgSeqNum), times))
      ensures msgSeqNum == old(msgSeqNum) + |times|
      ensures |times| < |turns| ==> !CanSend(turns[|times|])
      ensures forall i :: 0 <= i < |times| ==> CanSend(turns[i])
      ensures NoDelimiter(senderCompId) && (forall t :: t in times ==> NoDelimiter(t)) ==>
                && Drain(socket).rest == ""
                && AreHeartbeats(Drain(socket).frames, senderCompId, "SPOT", old(msgSeqNum), times)
    {
      hide Frame, Joined, HeartbeatFields, CanSend, Stream, Heartbeats, Drain, NoDelimiter, AreHeartbeats;
      times := [];
      NoHeartbeats(senderCompId, targetCompId, msgSeqNum);
      for k := 0 to |turns|
        invariant |times| == k && forall i :: 0 <= i < k ==> times[i] == turns[i].0 && CanSend(turns[i])
        invariant socket == Stream(Heartbeats(senderCompId, targetCompId, old(msgSeqNum), times))
        invariant msgSeqNum == old(msgSeqNum) + |times|
      {
        var sent := SendHeartbeat(turns[k].0, turns[k].1);
        if !sent {
          break;
        }
        HeartbeatsSnoc(senderCompId, targetCompId, old(msgSeqNum), times, turns[k].0);
        StreamConcat(Heartbeats(senderCompId, targetCompId, old(msgSeqNum), times),
                     Joined(HeartbeatFields(senderCompId, targetCompId, old(msgSeqNum) + |times|, turns[k].0)));
        times := times + [turns[k].0];
      }
      if NoDelimiter(senderCompId) && (forall t :: t in times ==> NoDelimiter(t)) {
        PlainTarget();
        HeartbeatsReadBack(senderCompId, targetCompId, old(msgSeqNum), times);
      }
    }

    lemma PlainTarget()
      ensures NoDelimiter(targetCompId)
    {
    }

    /** The socket is up and the heartbeat is ASCII, its fixed parts and its number being so. */
    predicate CanSend(turn: (string, bool)) {
      turn.1 && IsAscii(turn.0) && IsAscii(senderCompId) && IsAscii(targetCompId)
    }
  }

  /** Python's `sum` over the characters' codes. */
  method SumOf(s: string) returns (total: nat)
    ensures total == ByteSum(s)
  {
    total := 0;
    for i := 0 to |s|
      invariant total == ByteSum(s[..i])
    {
      total := total + s[i] as int;
      assert s[..i + 1][..i] == s[..i];
    }
    assert s[..|s|] == s;
  }
}
