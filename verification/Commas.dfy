/** Thousands separators: `BotCommonUtils.comma_conversion`. */
module Commas {
  import opened Numerals
  import opened Text

  /** `s[::-1]`. */
  function Reverse(s: string): (r: string)
    ensures |r| == |s| && forall i :: 0 <= i < |s| ==> r[i] == s[|s| - 1 - i]
  {
    if s == [] then [] else Reverse(s[1..]) + [s[0]]
  }

  /** The text in groups of three from the right. */
  function Grouped(d: string): string {
    if |d| <= 3 then d else Grouped(d[..|d| - 3]) + "," + d[|d| - 3..]
  }

  /** What is written for the digits still to come after `i` digits from the right. */
  function Pending(d: string, i: nat): string {
    if d == [] then []
    else
      var last := |d| - 1;
      Pending(d[..last], i + 1) + (if (i + 1) % 3 == 0 && last > 0 then "," else "") + [d[last]]
  }

  lemma {:induction false} PendingEveryThree(d: string, i: nat)
    ensures Pending(d, i + 3) == Pending(d, i)
  {
    if d != [] {
      PendingEveryThree(d[..|d| - 1], i + 1);
    }
  }

  lemma {:induction false} PendingIsGrouped(d: string)
    ensures Pending(d, 0) == Grouped(d)
  {
    if |d| <= 3 {
      ShortPending(d);
    } else {
      var front, group := d[..|d| - 3], d[|d| - 3..];
      assert d == front + group;
      ThreePending(front, group);
      PendingEveryThree(front, 0);
      PendingIsGrouped(front);
    }
    hide Pending;
  }

  lemma ShortPending(d: string)
    requires |d| <= 3
    ensures Pending(d, 0) == d
  {
    hide Pending;
    EmptyPending();
    if |d| == 1 {
      Unseparated([], d[0], 0);
      assert [] + [d[0]] == d;
    } else if |d| == 2 {
      Unseparated([], d[0], 1);
      Unseparated([d[0]], d[1], 0);
      assert [] + [d[0]] == [d[0]] && [d[0]] + [d[1]] == d;
    } else if |d| == 3 {
      Unseparated([], d[0], 2);
      Unseparated([d[0]], d[1], 1);
      Unseparated([d[0]] + [d[1]], d[2], 0);
      assert [] + [d[0]] == [d[0]] && [d[0]] + [d[1]] + [d[2]] == d;
    }
  }

  lemma EmptyPending()
    ensures forall i: nat :: Pending([], i) == []
  {
  }

  lemma Unseparated(p: string, c: char, i: nat)
    requires (i + 1) % 3 != 0 || p == []
    ensures Pending(p + [c], i) == Pending(p, i + 1) + [c]
  {
    assert (p + [c])[..|p|] == p;
  }

  lemma Separated(p: string, c: char, i: nat)
    requires (i + 1) % 3 == 0 && p != []
    ensures Pending(p + [c], i) == Pending(p, i + 1) + "," + [c]
  {
    assert (p + [c])[..|p|] == p;
  }

  lemma ThreePending(p: string, group: string)
    requires p != [] && |group| == 3
    ensures Pending(p + group, 0) == Pending(p, 3) + "," + group
  {
    hide Pending;
    PendingTriple(p, group[0], group[1], group[2]);
    OneByOne(p, group);
    OneByOne(Pending(p, 3) + ",", group);
  }

  lemma PendingTriple(p: string, x: char, y: char, z: char)
    requires p != []
    ensures Pending(p + [x] + [y] + [z], 0) == Pending(p, 3) + "," + [x] + [y] + [z]
  {
    hide Pending;
    Separated(p, x, 2);
    Unseparated(p + [x], y, 1);
    Unseparated(p + [x] + [y], z, 0);
  }

  lemma OneByOne(p: string, group: string)
    requires |group| == 3
    ensures p + [group[0]] + [group[1]] + [group[2]] == p + group
  {
  }

  lemma TruncIs(value: real)
    ensures value >= 0.0 ==> Trunc(value) == value.Floor >= 0
    ensures -1.0 < value <= 0.0 ==> Trunc(value) == 0
    ensures value <= -1.0 ==> Trunc(value) == -(-value).Floor <= -1
  {
  }

  /** `comma_conversion`; integers and floats are both reals here. */
  method CommaConversion(value: real) returns (s: string)
    ensures value >= 0.0 ==> s == Grouped(Decimal(value.Floor))
    ensures -1.0 < value <= 0.0 ==> s == Grouped(Decimal(0))
    ensures value <= -1.0 ==> s == "-" + Grouped(Decimal((-value).Floor))
  {
    TruncIs(value);
    hide Trunc, Decimal, Grouped;
    var status, number := true, Trunc(value);
    if number < 0 {
      number, status := 0 - number, false;
    }
    var d := Decimal(number);
    var reversed := Reverse(d);
    s := "";
    assert d[..|d|] == d && Pending(d, 0) + Reverse(s) == Pending(d, 0);
    for i := 0 to |reversed|
      invariant Pending(d, 0) == Pending(d[..|d| - i], i) + Reverse(s)
    {
      OneTurn(d, i, s);
      s := s + [reversed[i]];
      if (i + 1) % 3 == 0 && |d| != i + 1 {
        s := s + ",";
      }
    }
    s := Reverse(s);
    PendingIsGrouped(d);
    if !status {
      s := "-" + s;
    }
  }

  /** One turn of the loop. */
  lemma OneTurn(d: string, i: nat, s: string)
    requires i < |d|
    ensures var next := s + [d[|d| - 1 - i]]; var comma := (i + 1) % 3 == 0 && |d| != i + 1;
            Pending(d[..|d| - i], i) + Reverse(s) ==
            Pending(d[..|d| - (i + 1)], i + 1) + Reverse(if comma then next + "," else next)
  {
    var p, c := d[..|d| - (i + 1)], d[|d| - 1 - i];
    assert d[..|d| - i] == p + [c];
    hide Pending, Reverse;
    ReverseOne(s, c);
    if (i + 1) % 3 == 0 && |d| != i + 1 {
      ReverseOne(s + [c], ',');
      Separated(p, c, i);
      Regroup(Pending(p, i + 1), c, Reverse(s));
    } else {
      Unseparated(p, c, i);
      assert Pending(p, i + 1) + [c] + Reverse(s) == Pending(p, i + 1) + ([c] + Reverse(s));
    }
  }

  lemma ReverseOne(s: string, c: char)
    ensures Reverse(s + [c]) == [c] + Reverse(s)
  {
  }

  lemma Regroup(a: string, c: char, b: string)
    ensures a + "," + [c] + b == a + ("," + ([c] + b))
  {
  }

  // ---------------------------------------------------------------- what the text is

  lemma DigitsHaveNoCommas(d: string)
    requires AllDigits(d)
    ensures Without(d, ',') == d
  {
    assert ',' !in d;
    WithoutNone(d, ',');
  }

  /** A comma stands exactly before every three characters counted from the right, never
      first: the groups after the first have three digits, the first has one to three. */
  predicate WellGrouped(s: string) {
    && |s| % 4 != 0
    && forall i :: 0 <= i < |s| ==> if (|s| - i) % 4 == 0 then s[i] == ',' else IsDigit(s[i])
  }

  predicate AllDigitsOf(s: string, n: nat) {
    |s| == n && AllDigits(s)
  }

  lemma AddGroup(p: string, t: string)
    requires AllDigitsOf(t, 3)
    ensures WellGrouped(p + "," + t) <==> WellGrouped(p)
    ensures Without(p + "," + t, ',') == Without(p, ',') + t
  {
    AddGroupShape(p, t);
    WithoutConcat(p, ",", ',');
    WithoutConcat(p + ",", t, ',');
    DigitsHaveNoCommas(t);
    LoneMark(',');
    hide Without, WellGrouped;
    assert Without(p, ',') + [] == Without(p, ',');
  }

  lemma AddGroupShape(p: string, t: string)
    requires AllDigitsOf(t, 3)
    ensures WellGrouped(p + "," + t) <==> WellGrouped(p)
  {
    var s := p + "," + t;
    assert forall i :: 0 <= i < |p| ==> s[i] == p[i] && (|s| - i) % 4 == (|p| - i) % 4;
    assert s[|p|] == ',' && forall i :: 0 <= i < 3 ==> s[|p| + 1 + i] == t[i];
  }

  /** Grouping writes the digits, well grouped. */
  lemma {:induction false} GroupedIsWellGrouped(d: string)
    requires AllDigits(d) && |d| >= 1
    ensures WellGrouped(Grouped(d)) && Without(Grouped(d), ',') == d
  {
    if |d| <= 3 {
      DigitsHaveNoCommas(d);
    } else {
      hide WellGrouped, Without;
      var front, group := d[..|d| - 3], d[|d| - 3..];
      assert d == front + group;
      GroupedIsWellGrouped(front);
      RejoinGroup(front, group);
      AddGroup(Grouped(front), group);
    }
  }

  /** There is no other well grouped text with the same digits. */
  lemma {:induction false} WellGroupedIsGrouped(s: string)
    requires WellGrouped(s)
    ensures |Without(s, ',')| >= 1 && s == Grouped(Without(s, ','))
  {
    if |s| <= 3 {
      DigitsHaveNoCommas(s);
    } else {
      var p, t := s[..|s| - 4], s[|s| - 3..];
      assert s == p + "," + t;
      AddGroup(p, t);
      WellGroupedIsGrouped(p);
      hide WellGrouped, Without, Grouped;
      RejoinGroup(Without(p, ','), t);
    }
  }

  lemma RejoinGroup(front: string, group: string)
    requires |front| >= 1 && |group| == 3
    ensures Grouped(front + group) == Grouped(front) + "," + group
  {
    var d := front + group;
    assert d[..|d| - 3] == front && d[|d| - 3..] == group;
  }

  /** The grouped numeral is the one well grouped text whose digits, with the commas deleted,
      are the numeral. */
  lemma GroupedExact(s: string, d: string)
    requires AllDigits(d) && |d| >= 1
    ensures s == Grouped(d) <==> WellGrouped(s) && Without(s, ',') == d
  {
    GroupedIsWellGrouped(d);
    if WellGrouped(s) {
      WellGroupedIsGrouped(s);
    }
    hide *;
  }

  /** The digits of the text read back as the value. */
  lemma GroupedReadsBack(n: nat)
    ensures AllDigits(Without(Grouped(Decimal(n)), ',')) && Value(Without(Grouped(Decimal(n)), ',')) == n
  {
    GroupedIsWellGrouped(Decimal(n));
    ReadBack(n);
    hide Without, Grouped;
  }
}
