/** Instrument codes, pairs and kline frames: what is printed is read back, exactly when. */
module InstCodes {
  import opened Options
  import opened Numerals
  import opened Text

  datatype InstCode = InstCode(pair: string, exchangeId: string, category: string)

  datatype KlineFrame = KlineFrame(number: int, unit: string)

  // ---------------------------------------------------------------- names

  /** `[A-Za-z0-9]`. */
  predicate NameChar(c: char) {
    'A' <= c <= 'Z' || 'a' <= c <= 'z' || '0' <= c <= '9'
  }

  predicate IsName(s: string) {
    |s| >= 1 && forall i :: 0 <= i < |s| ==> NameChar(s[i])
  }

  /** A name, or two joined by a hyphen. */
  predicate IsPairText(s: string) {
    var k := Run(s);
    k >= 1 && (k == |s| || (s[k] == '-' && IsName(s[k + 1..])))
  }

  /** The length of the longest prefix of name characters. */
  function Run(s: string): (k: nat)
    ensures k <= |s| && forall i :: 0 <= i < k ==> NameChar(s[i])
    ensures k < |s| ==> !NameChar(s[k])
  {
    if s == [] || !NameChar(s[0]) then 0 else 1 + Run(s[1..])
  }

  lemma RunOf(s: string, k: nat)
    requires k <= |s| && (forall i :: 0 <= i < k ==> NameChar(s[i])) && (k < |s| ==> !NameChar(s[k]))
    ensures Run(s) == k
  {
  }

  function UpperChar(c: char): (u: char)
    ensures NameChar(c) <==> NameChar(u)
    ensures u == '-' <==> c == '-'
  {
    if 'a' <= c <= 'z' then (c as int - 32) as char else c
  }

  function Upper(s: string): (u: string)
    ensures |u| == |s| && forall i :: 0 <= i < |s| ==> u[i] == UpperChar(s[i])
  {
    if s == [] then [] else [UpperChar(s[0])] + Upper(s[1..])
  }

  predicate IsUpper(s: string) {
    Upper(s) == s
  }

  lemma UpperTwice(s: string)
    ensures IsUpper(Upper(s))
  {
  }

  // ---------------------------------------------------------------- the pattern

  datatype Groups = Groups(pairText: string, exchangeId: string, category: string)

  /** The pair text before the first underscore, and what follows it. */
  function MatchPair(s: string): Option<(string, string)> {
    var k := Run(s);
    if k == 0 || k == |s| then None
    else if s[k] == '_' then Some((s[..k], s[k + 1..]))
    else if s[k] != '-' then None
    else
      var j := k + 1 + Run(s[k + 1..]);
      if j == k + 1 || j == |s| || s[j] != '_' then None else Some((s[..j], s[j + 1..]))
  }

  /** The exchange and the category, after the underscore. */
  function MatchSuffix(s: string): Option<(string, string)> {
    var k := Run(s);
    if k == 0 || k == |s| || s[k] != '.' then None
    else
      var rest := s[k + 1..];
      if Run(rest) == 0 then None else Some((s[..k], rest[..Run(rest)]))
  }

  /** `re.match` of the instrument pattern: a prefix of the text, every run as long as
      possible. */
  function Match(s: string): Option<Groups> {
    var p := MatchPair(s);
    if p.None? then None
    else
      var q := MatchSuffix(p.value.1);
      if q.None? then None else Some(Groups(p.value.0, q.value.0, q.value.1))
  }

  function Join(g: Groups): string {
    g.pairText + "_" + g.exchangeId + "." + g.category
  }

  predicate AreGroups(g: Groups) {
    IsPairText(g.pairText) && IsName(g.exchangeId) && IsName(g.category)
  }

  /** The text starts with the joined groups, and the category is not cut short. */
  ghost predicate Reads(s: string, g: Groups) {
    && AreGroups(g)
    && Join(g) <= s
    && (|Join(g)| < |s| ==> !NameChar(s[|Join(g)|]))
  }

  lemma MatchPairExact(s: string, t: string, rest: string)
    ensures MatchPair(s) == Some((t, rest)) <==> IsPairText(t) && s == t + "_" + rest
  {
    if MatchPair(s) == Some((t, rest)) {
      MatchPairSound(s, t, rest);
    }
    if IsPairText(t) && s == t + "_" + rest {
      MatchPairComplete(t, rest);
    }
  }

  lemma MatchPairSound(s: string, t: string, rest: string)
    requires MatchPair(s) == Some((t, rest))
    ensures IsPairText(t) && s == t + "_" + rest
  {
    var k := Run(s);
    RunOf(t, k);
    if s[k] == '-' {
      assert t[k + 1..] == s[k + 1..][..Run(s[k + 1..])];
    }
  }

  lemma MatchPairComplete(t: string, rest: string)
    requires IsPairText(t)
    ensures MatchPair(t + "_" + rest) == Some((t, rest))
  {
    var s, k := t + "_" + rest, Run(t);
    RunOf(s, k);
    if k == |t| {
      assert s[..k] == t && s[k + 1..] == rest;
    } else {
      assert s[k + 1..] == t[k + 1..] + "_" + rest;
      RunOf(s[k + 1..], |t| - k - 1);
      assert s[..|t|] == t && s[|t| + 1..] == rest;
    }
  }

  lemma MatchSuffixSound(s: string, e: string, c: string)
    requires MatchSuffix(s) == Some((e, c))
    ensures IsName(e) && IsName(c) && e + "." + c <= s
    ensures |e| + 1 + |c| < |s| ==> !NameChar(s[|e| + 1 + |c|])
  {
    assert s[|e| + 1..][..|c|] == c;
  }

  lemma MatchSuffixComplete(s: string, e: string, c: string)
    requires IsName(e) && IsName(c) && e + "." + c <= s
    requires |e| + 1 + |c| < |s| ==> !NameChar(s[|e| + 1 + |c|])
    ensures MatchSuffix(s) == Some((e, c))
  {
    var tail := s[|e| + 1 + |c|..];
    assert s == e + "." + (c + tail) by {
      assert s[..|e| + 1 + |c|] == e + "." + c;
    }
    SuffixOf(e, c, tail);
  }

  lemma SuffixOf(e: string, c: string, tail: string)
    requires IsName(e) && IsName(c) && (|tail| > 0 ==> !NameChar(tail[0]))
    ensures MatchSuffix(e + "." + (c + tail)) == Some((e, c))
  {
    var s, rest := e + "." + (c + tail), c + tail;
    RunOf(s, |e|);
    RunOf(rest, |c|);
    assert s[|e| + 1..] == rest && s[..|e|] == e && rest[..|c|] == c;
  }

  /** The pattern finds exactly the groups that the text starts with, and at most one way. */
  lemma MatchExact(s: string, g: Groups)
    ensures Match(s) == Some(g) <==> Reads(s, g)
  {
    if Match(s) == Some(g) {
      MatchSound(s, g);
    }
    if Reads(s, g) {
      MatchComplete(s, g);
    }
    hide *;
  }

  lemma MatchSound(s: string, g: Groups)
    requires Match(s) == Some(g)
    ensures Reads(s, g)
  {
    hide MatchPair, MatchSuffix, IsPairText, IsName, NameChar, Join;
    var rest := MatchPair(s).value.1;
    MatchPairExact(s, g.pairText, rest);
    Assembled(s, g, rest);
  }

  lemma Assembled(s: string, g: Groups, rest: string)
    requires IsPairText(g.pairText) && s == g.pairText + "_" + rest
    requires MatchSuffix(rest) == Some((g.exchangeId, g.category))
    ensures Reads(s, g)
  {
    hide MatchSuffix, IsPairText, IsName, NameChar, Join;
    MatchSuffixSound(rest, g.exchangeId, g.category);
    JoinShape(g);
    Prefix(s, g.pairText + "_", rest, g.exchangeId + "." + g.category, Join(g));
  }

  lemma MatchComplete(s: string, g: Groups)
    requires Reads(s, g)
    ensures Match(s) == Some(g)
  {
    JoinShape(g);
    hide MatchPair, MatchSuffix, IsPairText, IsName, Join, NameChar;
    var rest := s[|g.pairText| + 1..];
    Rest(s, g.pairText + "_", g.exchangeId + "." + g.category);
    MatchPairExact(s, g.pairText, rest);
    MatchSuffixComplete(rest, g.exchangeId, g.category);
  }

  lemma JoinShape(g: Groups)
    ensures Join(g) == (g.pairText + "_") + (g.exchangeId + "." + g.category)
  {
  }

  lemma Prefix(s: string, a: string, rest: string, b: string, joined: string)
    requires s == a + rest && b <= rest && joined == a + b
    ensures joined <= s
    ensures |joined| < |s| ==> |b| < |rest| && s[|joined|] == rest[|b|]
  {
  }

  lemma Rest(s: string, a: string, b: string)
    requires a + b <= s
    ensures s == a + s[|a|..] && b <= s[|a|..]
    ensures |a + b| < |s| ==> s[|a|..][|b|] == s[|a + b|]
  {
    assert s[..|a + b|] == a + b;
    assert s[|a|..][..|b|] == (a + b)[|a|..];
  }

  // ---------------------------------------------------------------- symbols and pairs

  /** The quotes in the order they are tried. */
  const QUOTES: seq<string> := ["USDT", "USDC", "BUSD", "USD", "BTC", "ETH"]

  predicate EndsWith(s: string, q: string) {
    |q| <= |s| && s[|s| - |q|..] == q
  }

  /** The loop stops at this quote. */
  predicate Stops(symbol: string, q: string) {
    EndsWith(symbol, q) && |symbol| > |q|
  }

  function Cut(symbol: string, q: string): string
    requires Stops(symbol, q)
  {
    symbol[..|symbol| - |q|] + "-" + q
  }

  /** The loop over the quotes: the first that leaves a base. */
  function SplitQuote(symbol: string, quotes: seq<string>): string {
    if quotes == [] then symbol
    else if Stops(symbol, quotes[0]) then Cut(symbol, quotes[0])
    else SplitQuote(symbol, quotes[1..])
  }

  function ConvertSymbolToPair(symbol: string): string {
    SplitQuote(Without(Upper(symbol), '-'), QUOTES)
  }

  function ConvertPairToSymbol(pair: string): string {
    Upper(Without(Without(pair, '-'), '_'))
  }

  /** A base of two or more characters ending in B, quoted in USD: its symbol ends in BUSD. */
  predicate ReadsAsBusd(base: string, quote: string) {
    quote == "USD" && |base| >= 2 && base[|base| - 1] == 'B'
  }

  lemma EndOfSymbol(base: string, quote: string, q: string)
    requires quote in QUOTES && q in QUOTES
    ensures 3 <= |quote| <= 4 && 3 <= |q| <= 4
    ensures EndsWith(base + quote, q) <==>
            if |q| <= |quote| then EndsWith(quote, q)
            else |base| >= 1 && q == [base[|base| - 1]] + quote
  {
    var s := base + quote;
    if |q| <= |quote| {
      assert s[|s| - |q|..] == quote[|quote| - |q|..];
    } else if |base| >= 1 {
      assert s[|s| - |q|..] == [base[|base| - 1]] + quote;
    }
  }

  /** Which quotes a symbol made with a quote can end in. */
  lemma QuoteTable(base: string, quote: string, q: string)
    requires quote in QUOTES && q in QUOTES
    ensures EndsWith(base + quote, q) <==>
            || q == quote
            || (quote == "USD" && q == "BUSD" && |base| >= 1 && base[|base| - 1] == 'B')
            || (quote == "BUSD" && q == "USD")
  {
    EndOfSymbol(base, quote, q);
    if |q| > |quote| {
      assert quote[0] == 'U' || quote[0] == 'B' || quote[0] == 'E';
      assert |base| >= 1 ==> ([base[|base| - 1]] + quote)[1..] == quote;
    }
    LastThree(quote);
    LastThree(q);
  }

  lemma LastThree(q: string)
    requires q in QUOTES
    ensures q == "USDT" ==> q[1..] == "SDT"
    ensures q == "USDC" ==> q[1..] == "SDC"
    ensures q == "BUSD" ==> q[1..] == "USD"
  {
  }

  /** The loop, unrolled. */
  lemma QuoteByQuote(s: string)
    ensures SplitQuote(s, QUOTES) ==
            if Stops(s, "USDT") then Cut(s, "USDT")
            else if Stops(s, "USDC") then Cut(s, "USDC")
            else if Stops(s, "BUSD") then Cut(s, "BUSD")
            else if Stops(s, "USD") then Cut(s, "USD")
            else if Stops(s, "BTC") then Cut(s, "BTC")
            else if Stops(s, "ETH") then Cut(s, "ETH")
            else s
  {
    NextQuote(s, "USDT", ["USDC", "BUSD", "USD", "BTC", "ETH"]);
    NextQuote(s, "USDC", ["BUSD", "USD", "BTC", "ETH"]);
    NextQuote(s, "BUSD", ["USD", "BTC", "ETH"]);
    NextQuote(s, "USD", ["BTC", "ETH"]);
    NextQuote(s, "BTC", ["ETH"]);
    NextQuote(s, "ETH", []);
    hide Stops, Cut;
  }

  lemma NextQuote(s: string, q: string, rest: seq<string>)
    ensures SplitQuote(s, [q] + rest) == if Stops(s, q) then Cut(s, q) else SplitQuote(s, rest)
  {
    assert ([q] + rest)[1..] == rest;
  }

  lemma CutOf(base: string, quote: string)
    ensures |base| >= 1 ==> Stops(base + quote, quote) && Cut(base + quote, quote) == base + "-" + quote
  {
    assert (base + quote)[|base|..] == quote && (base + quote)[..|base|] == base;
  }

  /** Which quotes stop the loop on a symbol made with a quote. */
  lemma StopTable(base: string, quote: string, q: string)
    requires quote in QUOTES && q in QUOTES && |base| >= 1
    ensures Stops(base + quote, q) <==>
            q == quote || (ReadsAsBusd(base, quote) && q == "BUSD") || (quote == "BUSD" && q == "USD")
  {
    QuoteTable(base, quote, q);
    CutOf(base, quote);
    hide EndsWith;
  }

  lemma SixStops(base: string, quote: string)
    requires quote in QUOTES && |base| >= 1
    ensures var s := base + quote;
            && (Stops(s, "USDT") <==> quote == "USDT")
            && (Stops(s, "USDC") <==> quote == "USDC")
            && (Stops(s, "BUSD") <==> quote == "BUSD" || ReadsAsBusd(base, quote))
            && (Stops(s, "USD") <==> quote == "USD" || quote == "BUSD")
            && (Stops(s, "BTC") <==> quote == "BTC")
            && (Stops(s, "ETH") <==> quote == "ETH")
  {
    StopTable(base, quote, "USDT");
    StopTable(base, quote, "USDC");
    StopTable(base, quote, "BUSD");
    StopTable(base, quote, "USD");
    StopTable(base, quote, "BTC");
    StopTable(base, quote, "ETH");
    hide Stops, ReadsAsBusd;
  }

  /** The first quote tried that ends the symbol decides. */
  lemma SplitKnown(base: string, quote: string)
    requires quote in QUOTES && |base| >= 1
    ensures SplitQuote(base + quote, QUOTES) ==
            if ReadsAsBusd(base, quote) then base[..|base| - 1] + "-BUSD" else base + "-" + quote
  {
    QuoteByQuote(base + quote);
    CutOf(base, quote);
    SixStops(base, quote);
    if ReadsAsBusd(base, quote) {
      BusdInstead(base, quote);
    }
    hide Stops, Cut, SplitQuote, ReadsAsBusd, EndsWith;
  }

  lemma BusdInstead(base: string, quote: string)
    requires ReadsAsBusd(base, quote)
    ensures Stops(base + quote, "BUSD") && Cut(base + quote, "BUSD") == base[..|base| - 1] + "-BUSD"
  {
    assert base + quote == base[..|base| - 1] + "BUSD";
    CutOf(base[..|base| - 1], "BUSD");
    hide Stops, Cut;
  }

  /** The hyphen-free symbol gives back base and quote exactly unless it reads as a BUSD
      pair. */
  lemma SymbolRoundTripExact(base: string, quote: string)
    requires IsName(base) && IsUpper(base)
    requires quote in {"USDT", "USDC", "BUSD", "USD", "BTC", "ETH"}
    ensures ConvertPairToSymbol(base + "-" + quote) == base + quote
    ensures ConvertSymbolToPair(base + quote) == base + "-" + quote <==> !ReadsAsBusd(base, quote)
  {
    UpperQuote(quote);
    UpperConcat(base, quote);
    NamesHaveNoMarks(base + quote);
    WithoutNone(base + quote, '-');
    SymbolOf(base, quote);
    SplitKnown(base, quote);
    hide SplitQuote, Upper, Without, QUOTES, IsName;
    if ReadsAsBusd(base, quote) {
      var wrong, right := base[..|base| - 1] + "-BUSD", base + "-" + quote;
      assert wrong[|base| - 1] == '-' && right[|base| - 1] == 'B';
    }
  }

  lemma UpperQuote(quote: string)
    requires quote in QUOTES
    ensures IsName(quote) && IsUpper(quote)
  {
  }

  lemma UpperConcat(a: string, b: string)
    ensures IsUpper(a) && IsUpper(b) ==> IsUpper(a + b)
    ensures IsName(a) && IsName(b) ==> IsName(a + b)
  {
  }

  lemma NamesHaveNoMarks(s: string)
    requires IsName(s)
    ensures '-' !in s && '_' !in s
  {
  }

  lemma SymbolOf(base: string, quote: string)
    requires '-' !in base && '-' !in quote && '_' !in base + quote && IsUpper(base + quote)
    ensures ConvertPairToSymbol(base + "-" + quote) == base + quote
  {
    HyphenOut(base, quote);
    WithoutNone(base + quote, '_');
    hide Without;
  }

  lemma HyphenOut(base: string, quote: string)
    requires '-' !in base && '-' !in quote
    ensures Without(base + "-" + quote, '-') == base + quote
  {
    hide Without;
    WithoutConcat(base, "-", '-');
    WithoutConcat(base + "-", quote, '-');
    WithoutNone(base, '-');
    WithoutNone(quote, '-');
    LoneMark('-');
    assert base + [] == base;
  }

  // ---------------------------------------------------------------- InstCode

  /** `str(inst_code)`. */
  function Print(c: InstCode): string {
    c.pair + "_" + c.exchangeId + "." + c.category
  }

  /** The pair of the matched text: upper-cased, or split off a hyphen-free symbol. */
  function PairOf(text: string): string {
    if '-' in text then Upper(text) else ConvertSymbolToPair(text)
  }

  /** `InstCode.from_string`; None is its DataTypeException. */
  function FromString(s: string): Option<InstCode> {
    var g := Match(s);
    if g.None? then None else Some(InstCode(PairOf(g.value.pairText), g.value.exchangeId, g.value.category))
  }

  /** Upper case, and not a symbol that a known quote would split. */
  ghost predicate IsCanonicalPair(p: string) {
    IsPairText(p) && IsUpper(p) && (IsName(p) ==> Unsplit(p))
  }

  ghost predicate Unsplit(p: string) {
    forall q <- QUOTES :: !Stops(p, q)
  }

  ghost predicate IsCanonical(c: InstCode) {
    IsCanonicalPair(c.pair) && IsName(c.exchangeId) && IsName(c.category)
  }

  lemma HyphenMeansTwoNames(t: string)
    requires IsPairText(t)
    ensures '-' in t <==> !IsName(t)
  {
  }

  lemma UpperKeepsShape(t: string)
    ensures IsName(t) ==> IsName(Upper(t))
    ensures IsPairText(t) && !IsName(t) ==> IsPairText(Upper(t)) && !IsName(Upper(t))
  {
    UpperKeepsNames(t);
    if IsPairText(t) && !IsName(t) {
      var u, k := Upper(t), Run(t);
      hide IsPairText, UpperChar;
      UpperKeepsPairs(t, k);
    }
  }

  lemma UpperKeepsNames(t: string)
    ensures IsName(t) <==> IsName(Upper(t))
  {
    hide UpperChar;
  }

  lemma UpperKeepsPairs(t: string, k: nat)
    requires k == Run(t) && 1 <= k < |t| && t[k] == '-' && IsName(t[k + 1..])
    ensures IsPairText(Upper(t)) && !IsName(Upper(t))
  {
    var u := Upper(t);
    hide UpperChar, Upper;
    RunOf(u, k);
    var v, w := t[k + 1..], u[k + 1..];
    assert forall i :: 0 <= i < |w| ==> w[i] == UpperChar(v[i]);
    assert !NameChar(u[k]);
  }

  lemma JoinedNames(base: string, quote: string)
    requires IsName(base) && IsName(quote) && IsUpper(base) && IsUpper(quote)
    ensures var p := base + "-" + quote; IsPairText(p) && !IsName(p) && IsUpper(p)
  {
    var p := base + "-" + quote;
    RunOf(p, |base|);
    assert p[|base| + 1..] == quote;
    assert !NameChar(p[|base|]);
  }

  /** A symbol is left alone, or cut before a known quote. */
  lemma SplitShape(s: string)
    ensures Unsplit(s) ==> SplitQuote(s, QUOTES) == s
    ensures !Unsplit(s) ==> exists q <- QUOTES :: Stops(s, q) && SplitQuote(s, QUOTES) == Cut(s, q)
  {
    QuoteByQuote(s);
    hide Cut, EndsWith, SplitQuote, Stops;
  }

  lemma CutIsCanonical(s: string, q: string)
    requires IsName(s) && IsUpper(s) && q in QUOTES && Stops(s, q)
    ensures IsCanonicalPair(Cut(s, q))
  {
    UpperQuote(q);
    JoinedNames(s[..|s| - |q|], q);
  }

  /** What the parser makes of a pair text is canonical, and only a canonical text is left as
      it is. */
  lemma PairOfExact(t: string)
    requires IsPairText(t)
    ensures IsCanonicalPair(PairOf(t))
    ensures PairOf(t) == t <==> IsCanonicalPair(t)
  {
    HyphenMeansTwoNames(t);
    UpperKeepsShape(t);
    UpperTwice(t);
    if IsName(t) {
      NamesHaveNoMarks(Upper(t));
      WithoutNone(Upper(t), '-');
      SymbolCanonical(Upper(t));
      SplitShape(t);
    }
    hide SplitQuote, Without, Upper, IsName, IsPairText, Unsplit;
  }

  lemma SymbolCanonical(s: string)
    requires IsName(s) && IsUpper(s)
    ensures IsCanonicalPair(SplitQuote(s, QUOTES))
  {
    SplitShape(s);
    if !Unsplit(s) {
      var q :| q in QUOTES && Stops(s, q) && SplitQuote(s, QUOTES) == Cut(s, q);
      CutIsCanonical(s, q);
    } else {
      NameIsPairText(s);
    }
    hide Cut, Stops, EndsWith, SplitQuote, Upper, IsName, IsPairText;
  }

  lemma NameIsPairText(s: string)
    requires IsName(s)
    ensures IsPairText(s)
  {
    RunOf(s, |s|);
  }

  lemma MatchOfPrint(c: InstCode)
    requires IsPairText(c.pair) && IsName(c.exchangeId) && IsName(c.category)
    ensures FromString(Print(c)) == Some(InstCode(PairOf(c.pair), c.exchangeId, c.category))
  {
    var g := Groups(c.pair, c.exchangeId, c.category);
    assert Join(g) == Print(c);
    MatchExact(Print(c), g);
    hide Match, IsPairText, IsName, PairOf;
  }

  lemma ParsedIsCanonical(s: string)
    requires FromString(s).Some?
    ensures IsCanonical(FromString(s).value)
  {
    var g := Match(s).value;
    MatchExact(s, g);
    PairOfExact(g.pairText);
    hide Match, PairOf, IsName, IsPairText, IsCanonicalPair;
  }

  /** Printing then parsing is the identity exactly on canonical codes, the only ones the
      parser can return. */
  lemma PrintParseExact(c: InstCode)
    ensures FromString(Print(c)) == Some(c) <==> IsCanonical(c)
  {
    if FromString(Print(c)).Some? {
      ParsedIsCanonical(Print(c));
    }
    if IsCanonical(c) {
      MatchOfPrint(c);
      PairOfExact(c.pair);
    }
    hide FromString, Print, PairOf;
  }

  /** A code in the old form without a hyphen is read as base and quote exactly unless it
      reads as a BUSD pair. */
  lemma OldFormExact(base: string, quote: string, exchangeId: string, category: string)
    requires IsName(base) && IsUpper(base) && quote in QUOTES && IsName(exchangeId) && IsName(category)
    ensures FromString(Print(InstCode(base + quote, exchangeId, category))) ==
            Some(InstCode(base + "-" + quote, exchangeId, category))
            <==> !ReadsAsBusd(base, quote)
  {
    UpperQuote(quote);
    UpperConcat(base, quote);
    NameIsPairText(base + quote);
    NamesHaveNoMarks(base + quote);
    MatchOfPrint(InstCode(base + quote, exchangeId, category));
    SymbolRoundTripExact(base, quote);
    hide FromString, Print, ConvertSymbolToPair, IsName, IsPairText;
  }

  /** `convert_inst_code_to_pair`. */
  function InstCodeToPair(s: string): string {
    Upper(if '_' in s then s[..First(s, '_')] else s)
  }

  /** Upper case: the letters from a to z become those from A to Z, the rest stays. */
  lemma UpperExact(s: string, i: nat)
    requires i < |s|
    ensures |Upper(s)| == |s|
    ensures if 'a' <= s[i] <= 'z'
            then 'A' <= Upper(s)[i] <= 'Z' && Upper(s)[i] as int - 'A' as int == s[i] as int - 'a' as int
            else Upper(s)[i] == s[i]
  {
  }

  lemma PartsAt(a: string, b: string, c: char)
    requires c !in a
    ensures var s := a + [c] + b; c in s && s[..First(s, c)] == a && s[First(s, c) + 1..] == b
  {
    var s := a + [c] + b;
    assert s[|a|] == c;
    FirstOf(a, b, c);
    hide First;
  }

  /** A printed code is read by its punctuation alone: the pair ends at the first underscore,
      the exchange at the first full stop after it, and the category at the end. */
  lemma PrintedParts(c: InstCode)
    requires '_' !in c.pair && '.' !in c.exchangeId
    ensures var s := Print(c);
            && '_' in s && s[..First(s, '_')] == c.pair
            && var rest := s[First(s, '_') + 1..];
              '.' in rest && rest[..First(rest, '.')] == c.exchangeId && rest[First(rest, '.') + 1..] == c.category
  {
    var s, rest := Print(c), c.exchangeId + "." + c.category;
    assert s == c.pair + ['_'] + rest && rest == c.exchangeId + ['.'] + c.category;
    hide *;
    PartsAt(c.pair, rest, '_');
    PartsAt(c.exchangeId, c.category, '.');
  }

  /** The pair is recovered from the printed code without parsing the rest. */
  lemma PairOfPrintedCode(c: InstCode)
    requires IsCanonicalPair(c.pair)
    ensures InstCodeToPair(Print(c)) == c.pair
  {
    PairTextHasNoUnderscore(c.pair);
    FirstOf(c.pair, c.exchangeId + "." + c.category, '_');
    assert Print(c) == c.pair + "_" + (c.exchangeId + "." + c.category);
    hide Upper, IsPairText, First;
  }

  lemma PairTextHasNoUnderscore(t: string)
    requires IsPairText(t)
    ensures '_' !in t
  {
    var k := Run(t);
    forall i | 0 <= i < |t| ensures t[i] != '_' {
      assert i > k ==> t[i] == t[k + 1..][i - k - 1];
    }
  }

  // ---------------------------------------------------------------- kline frames

  predicate IsUnit(unit: string) {
    unit == "m" || unit == "h" || unit == "d"
  }

  /** What the check in `__post_init__` leaves. */
  predicate IsFrame(k: KlineFrame) {
    IsUnit(k.unit)
  }

  /** `str(n)` of an integer. */
  function PrintInt(n: int): string {
    if n < 0 then "-" + Decimal(-n) else Decimal(n)
  }

  /** `str(kline_frame)`. */
  function PrintFrame(k: KlineFrame): string {
    PrintInt(k.number) + k.unit
  }

  function Digits(s: string): (k: nat)
    ensures k <= |s| && AllDigits(s[..k])
    ensures k < |s| ==> !IsDigit(s[k])
  {
    if s == [] || !IsDigit(s[0]) then 0
    else
      assert s[..1 + Digits(s[1..])] == [s[0]] + s[1..][..Digits(s[1..])];
      1 + Digits(s[1..])
  }

  /** `KlineFrame.from_string`; None is its ValueError. */
  function FrameFromString(s: string): Option<KlineFrame> {
    var k := Digits(s);
    if k == 0 || k == |s| || !IsUnit([s[k]]) then None else Some(KlineFrame(Value(s[..k]), [s[k]]))
  }

  lemma DigitsOf(s: string, k: nat)
    requires k < |s| && AllDigits(s[..k]) && !IsDigit(s[k])
    ensures Digits(s) == k
  {
  }

  predicate IsLetterOf(unit: string, c: char) {
    unit == [c] && (c == 'm' || c == 'h' || c == 'd')
  }

  /** What the frame parser makes of a text: as many digits as it starts with, at least one,
      and one of the letters m, h and d after them; the rest is not looked at. */
  lemma FrameParseExact(s: string, n: int, unit: string)
    ensures FrameFromString(s) == Some(KlineFrame(n, unit)) <==>
            exists k :: 0 < k < |s| && AllDigits(s[..k]) && Value(s[..k]) == n && IsLetterOf(unit, s[k])
  {
    if k :| 0 < k < |s| && AllDigits(s[..k]) && Value(s[..k]) == n && IsLetterOf(unit, s[k]) {
      DigitsOf(s, k);
    }
    if FrameFromString(s) == Some(KlineFrame(n, unit)) {
      var k := Digits(s);
      assert unit[0] == s[k];
    }
  }

  /** A kline frame is read back exactly when its number is not negative. */
  lemma FrameRoundTripExact(k: KlineFrame)
    requires IsFrame(k)
    ensures FrameFromString(PrintFrame(k)) == Some(k) <==> k.number >= 0
  {
    var s := PrintFrame(k);
    if k.number >= 0 {
      var d := Decimal(k.number);
      assert s[..|d|] == d && s[|d|..] == k.unit;
      DigitsOf(s, |d|);
      ReadBack(k.number);
      assert [s[|d|]] == k.unit;
    }
  }

  lemma FrameHasNoUnderscore(k: KlineFrame)
    requires IsFrame(k)
    ensures '_' !in PrintFrame(k)
  {
    var d := Decimal(if k.number < 0 then -k.number else k.number);
    assert forall i :: 0 <= i < |d| ==> IsDigit(d[i]);
  }

  // ---------------------------------------------------------------- code and frame together

  datatype Parsed =
    | Both(instCode: InstCode, frame: KlineFrame)
    | NoUnderscore    // ValueError is raised
    | BadInstCode     // DataTypeException is raised
    | BadFrame        // the ValueError is returned as a value

  function Last(s: string, c: char): (i: nat)
    requires c in s
    ensures i < |s| && s[i] == c && c !in s[i + 1..]
  {
    if s[|s| - 1] == c then |s| - 1
    else
      var i := Last(s[..|s| - 1], c);
      assert s[i + 1..] == s[..|s| - 1][i + 1..] + [s[|s| - 1]];
      i
  }

  lemma LastOf(a: string, b: string, c: char)
    requires c !in b
    ensures Last(a + [c] + b, c) == |a|
  {
    var s, i := a + [c] + b, Last(a + [c] + b, c);
    assert s[|a|] == c && s[|a| + 1..] == b;
  }

  /** `split_inst_code_kline_frame`. */
  function SplitCodeAndFrame(s: string): Parsed {
    if '_' !in s then NoUnderscore
    else
      var i := Last(s, '_');
      var c := FromString(s[..i]);
      if c.None? then BadInstCode
      else
        var k := FrameFromString(s[i + 1..]);
        if k.None? then BadFrame else Both(c.value, k.value)
  }

  /** A printed code, an underscore and a printed frame are split and read back exactly when
      the code is canonical and the number not negative. */
  lemma SplitRoundTripExact(c: InstCode, k: KlineFrame)
    requires IsFrame(k)
    ensures SplitCodeAndFrame(Print(c) + "_" + PrintFrame(k)) == Both(c, k) <==> IsCanonical(c) && k.number >= 0
  {
    FrameHasNoUnderscore(k);
    PrintParseExact(c);
    FrameRoundTripExact(k);
    SplitAt(Print(c), PrintFrame(k));
    hide *;
  }

  lemma SplitAt(a: string, b: string)
    requires '_' !in b
    ensures SplitCodeAndFrame(a + "_" + b) ==
            if FromString(a).None? then BadInstCode
            else if FrameFromString(b).None? then BadFrame
            else Both(FromString(a).value, FrameFromString(b).value)
  {
    var s := a + "_" + b;
    LastOf(a, b, '_');
    hide FromString, FrameFromString, Last;
    assert s[|a|] == '_' && s[..|a|] == a && s[|a| + 1..] == b;
  }
}
