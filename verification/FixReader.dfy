/** Reading a FIX message by its tags, as its receiver does: fields end at delimiters, and a
    field is a tag, an equals sign and a value. */
module FixReader {
  import opened Options
  import opened Numerals
  import opened FixFraming

  /** The value of the first field with this tag. */
  function TagValue(body: string, tag: string): Option<string>
    decreases |body|
  {
    var e := Find(body, [SOH], 0);
    if e == -1 then None
    else if tag + "=" <= body[..e] then Some(body[|tag| + 1..e])
    else TagValue(body[e + 1..], tag)
  }

  /** A heartbeat of this sender to this target, with this number and this time. */
  predicate IsHeartbeat(body: string, sender: string, target: string, n: nat, utc: string) {
    && TagValue(body, "35") == Some("0")
    && TagValue(body, "49") == Some(sender)
    && TagValue(body, "56") == Some(target)
    && HasNumber(TagValue(body, "34"), n)
    && TagValue(body, "52") == Some(utc)
  }

  predicate HasNumber(text: Option<string>, n: nat) {
    text.Some? && AllDigits(text.value) && Value(text.value) == n
  }

  /** The first field has the tag, or the others are looked at. */
  lemma TagOfFirst(field: string, rest: string, tag: string)
    requires SOH !in field
    ensures TagValue(field + [SOH] + rest, tag) ==
            if tag + "=" <= field then Some(field[|tag| + 1..]) else TagValue(rest, tag)
  {
    var s := field + [SOH] + rest;
    forall i: nat | i < |field| ensures !MatchAt(s, [SOH], i) {
      assert s[i] == field[i];
      NoMatch(s, [SOH], i, 0);
    }
    assert s[|field|..|field| + 1] == [SOH];
    FindIs(s, [SOH], 0, |field|);
    assert s[..|field|] == field && s[|field| + 1..] == rest;
    assert tag + "=" <= field ==> s[|tag| + 1..|field|] == field[|tag| + 1..];
  }

  lemma TagOfNothing(tag: string)
    ensures TagValue("", tag) == None
  {
    assert !MatchAt("", [SOH], 0);
  }
}
