/** Deleting every copy of a character from a text, and finding the first. */
module Text {

  /** `replace(c, "")`. */
  function Without(s: string, c: char): string {
    if s == [] then [] else (if s[0] == c then [] else [s[0]]) + Without(s[1..], c)
  }

  lemma {:induction false} WithoutNone(s: string, c: char)
    requires c !in s
    ensures Without(s, c) == s
  {
    if s != [] {
      WithoutNone(s[1..], c);
    }
  }

  lemma {:induction false} WithoutConcat(a: string, b: string, c: char)
    ensures Without(a + b, c) == Without(a, c) + Without(b, c)
  {
    if a == [] {
      assert a + b == b;
    } else {
      assert (a + b)[1..] == a[1..] + b;
      WithoutConcat(a[1..], b, c);
    }
  }

  lemma LoneMark(c: char)
    ensures Without([c], c) == []
  {
    assert [c][1..] == [];
  }

  /** Where the character first stands. */
  function First(s: string, c: char): (i: nat)
    requires c in s
    ensures i < |s| && s[i] == c && c !in s[..i]
  {
    if s[0] == c then 0 else 1 + First(s[1..], c)
  }

  lemma FirstOf(a: string, b: string, c: char)
    requires c !in a
    ensures First(a + [c] + b, c) == |a|
  {
    var s, i := a + [c] + b, First(a + [c] + b, c);
    assert s[|a|] == c;
  }
}
