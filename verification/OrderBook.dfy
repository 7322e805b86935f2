/** Ticks, best prices, order volumes and depth totals, in exact arithmetic over the reals. */
module OrderBook {
  import opened Options
  import opened Numerals

  // ---------------------------------------------------------------- multiples of a tick

  /** `handle_pcs_decimal`: Decimal's `//` truncates toward zero. None is the division by
      zero. */
  function HandlePcs(pcs: real, value: real): Option<real> {
    if pcs == 0.0 then None else Some(Trunc(value / pcs) as real * pcs)
  }

  predicate IsMultiple(x: real, pcs: real)
    requires pcs != 0.0
  {
    x / pcs == (x / pcs).Floor as real
  }

  lemma MultipleOfItself(n: int, pcs: real)
    requires pcs != 0.0
    ensures IsMultiple(n as real * pcs, pcs)
  {
    assert n as real * pcs / pcs == n as real;
  }

  lemma TruncBounds(q: real)
    ensures var n := Trunc(q) as real;
            && (q >= 0.0 ==> 0.0 <= n <= q < n + 1.0)
            && (q <= 0.0 ==> n - 1.0 < q <= n <= 0.0)
            && (n <= q <==> q >= 0.0 || q == q.Floor as real)
  {
    if q < 0.0 {
      var f := (-q).Floor;
      assert f >= 0;
      FloorOf(q, -f);
      FloorOf(q, q.Floor);
    }
  }

  lemma FloorOf(q: real, n: int)
    ensures q == n as real ==> q.Floor == n && (-q).Floor == -n
  {
  }

  lemma CompareScaled(a: real, b: real, m: real)
    requires m > 0.0
    ensures a * m <= b * m <==> a <= b
    ensures a * m < b * m <==> a < b
  {
    assert b * m - a * m == (b - a) * m;
  }

  /** The result is a multiple of the unit, less than one unit away and toward zero; so it is
      not above the value exactly when the value is not negative or needs no rounding. */
  lemma HandlePcsExact(pcs: real, value: real)
    requires pcs > 0.0
    ensures var a := HandlePcs(pcs, value).value;
            && IsMultiple(a, pcs)
            && (value >= 0.0 ==> 0.0 <= a <= value < a + pcs)
            && (value <= 0.0 ==> a - pcs < value <= a <= 0.0)
            && (a <= value <==> value >= 0.0 || IsMultiple(value, pcs))
  {
    var q, n := Parts(pcs, value);
    TruncBounds(q);
    hide Trunc, HandlePcs, IsMultiple;
  }

  /** The quotient and its truncation, and the result's place in terms of them. */
  lemma Parts(pcs: real, value: real) returns (q: real, n: int)
    requires pcs > 0.0
    ensures n == Trunc(q)
    ensures q >= 0.0 <==> value >= 0.0
    ensures q <= 0.0 <==> value <= 0.0
    ensures IsMultiple(value, pcs) <==> q == q.Floor as real
    ensures var a := HandlePcs(pcs, value).value;
            && IsMultiple(a, pcs)
            && (a <= value <==> n as real <= q)
            && (value <= a <==> q <= n as real)
            && (0.0 <= a <==> 0.0 <= n as real)
            && (a <= 0.0 <==> n as real <= 0.0)
            && (value < a + pcs <==> q < n as real + 1.0)
            && (a - pcs < value <==> n as real - 1.0 < q)
  {
    q := value / pcs;
    n := Trunc(q);
    hide Trunc;
    var a := HandlePcs(pcs, value).value;
    assert q * pcs == value && a == n as real * pcs;
    MultipleOfItself(n, pcs);
    Placed(a, value, n as real, q, pcs);
  }

  /** Scaling by the unit keeps the order. */
  lemma Placed(a: real, value: real, n: real, q: real, pcs: real)
    requires pcs > 0.0 && a == n * pcs && value == q * pcs
    ensures a <= value <==> n <= q
    ensures value <= a <==> q <= n
    ensures 0.0 <= a <==> 0.0 <= n
    ensures a <= 0.0 <==> n <= 0.0
    ensures 0.0 <= value <==> 0.0 <= q
    ensures value <= 0.0 <==> q <= 0.0
    ensures value < a + pcs <==> q < n + 1.0
    ensures a - pcs < value <==> n - 1.0 < q
  {
    InOrder(a, value, n, q, pcs);
    InOrder(value, a, q, n, pcs);
    InOrder(0.0, a, 0.0, n, pcs);
    InOrder(a, 0.0, n, 0.0, pcs);
    InOrder(0.0, value, 0.0, q, pcs);
    InOrder(value, 0.0, q, 0.0, pcs);
    InOrder(value, a + pcs, q, n + 1.0, pcs);
    InOrder(a - pcs, value, n - 1.0, q, pcs);
  }

  lemma InOrder(x: real, y: real, a: real, b: real, m: real)
    requires m > 0.0 && x == a * m && y == b * m
    ensures x <= y <==> a <= b
    ensures x < y <==> a < b
  {
    CompareScaled(a, b, m);
  }

  // ---------------------------------------------------------------- trading orders

  /** A side given as a member of OrderSide or as text. */
  datatype SideArgument = Member | Named(text: string)

  /** The values of OrderSide. */
  const SIDES: set<string> := {"B", "S"}

  /** How `__post_init__` ends: TypeError, ValueError, or Decimal's error for a zero tick. */
  datatype Outcome = Fine | NotAnInstCode | InvalidSide | ZeroTick

  /** A TradingOrder; its ids and timestamps play no part. */
  class TradingOrder {
    const isInstCode: bool
    const side: SideArgument
    const rawPrice: real
    const tickPrice: real
    const rawVolume: real
    const tickVolume: real
    const market: bool
    var volume: real
    var price: real

    constructor (isInstCode: bool, side: SideArgument, rawPrice: real, tickPrice: real,
                 rawVolume: real, tickVolume: real, market: bool)
      ensures this.isInstCode == isInstCode && this.side == side
      ensures this.rawPrice == rawPrice && this.tickPrice == tickPrice
      ensures this.rawVolume == rawVolume && this.tickVolume == tickVolume && this.market == market
    {
      this.isInstCode, this.side := isInstCode, side;
      this.rawPrice, this.tickPrice := rawPrice, tickPrice;
      this.rawVolume, this.tickVolume := rawVolume, tickVolume;
      this.market := market;
    }

    /** `__post_init__` up to the client order id, for the drawn random number. Nothing is
        set when a check or the volume fails, the volume alone when the price does. */
    method PostInit(drawn: nat) returns (outcome: Outcome)
      requires 1 <= drawn <= 9
      modifies this
      ensures outcome.NotAnInstCode? <==> !isInstCode
      ensures outcome.InvalidSide? <==> isInstCode && side.Named? && side.text !in SIDES
      ensures outcome.ZeroTick? <==>
              && isInstCode && (side.Named? ==> side.text in SIDES)
              && (tickVolume == 0.0 || (!market && tickPrice == 0.0))
      ensures volume == if outcome.Fine? || (outcome.ZeroTick? && tickVolume != 0.0)
                        then Volume(rawVolume, tickVolume, drawn) else old(volume)
      ensures price == if !outcome.Fine? then old(price)
                       else if market then -1.0
                       else HandlePcs(tickPrice, rawPrice).value
    {
      if !isInstCode {
        return NotAnInstCode;
      }
      if side.Named? && side.text !in SIDES {
        return InvalidSide;
      }
      var v := HandlePcs(tickVolume, RandomNum(rawVolume, tickVolume, drawn));
      if v.None? {
        return ZeroTick;
      }
      volume := v.value;
      if market {
        price := -1.0;
      } else {
        var p := HandlePcs(tickPrice, rawPrice);
        if p.None? {
          return ZeroTick;
        }
        price := p.value;
      }
      return Fine;
    }
  }

  /** `get_random_num` for the drawn number. */
  function RandomNum(origin: real, min: real, drawn: nat): real {
    origin + drawn as real * min
  }

  function Volume(raw: real, tick: real, drawn: nat): real
    requires tick != 0.0
  {
    HandlePcs(tick, RandomNum(raw, tick, drawn)).value
  }

  /** The order's volume is a tick multiple above the raw volume, by at most the drawn number
      of ticks exactly when the sum is not negative or needs no rounding. */
  lemma VolumeExact(raw: real, tick: real, drawn: nat)
    requires tick > 0.0 && 1 <= drawn <= 9
    ensures var (v, sum) := (Volume(raw, tick, drawn), RandomNum(raw, tick, drawn));
            && IsMultiple(v, tick)
            && raw < v < raw + 10.0 * tick
            && (v <= sum <==> sum >= 0.0 || IsMultiple(sum, tick))
            && (raw >= 0.0 ==> v <= raw + 9.0 * tick)
    ensures var (v, sum) := (Volume(raw, tick, drawn), raw + drawn as real * tick);
            if sum >= 0.0 then sum - tick < v <= sum else sum <= v < sum + tick
  {
    var sum := RandomNum(raw, tick, drawn);
    HandlePcsExact(tick, sum);
    RandomNumBounds(raw, tick, drawn);
    hide HandlePcs, IsMultiple;
  }

  lemma RandomNumBounds(raw: real, tick: real, drawn: nat)
    requires tick > 0.0 && 1 <= drawn <= 9
    ensures raw + tick <= RandomNum(raw, tick, drawn) <= raw + 9.0 * tick
  {
    Placed(drawn as real * tick, tick, drawn as real, 1.0, tick);
    Placed(drawn as real * tick, 9.0 * tick, drawn as real, 9.0, tick);
  }

  // ---------------------------------------------------------------- best prices

  function MedianPrice(bid1: real, ask1: real): real {
    (bid1 + ask1) / 2.0
  }

  datatype Best = Best(bid: real, ask: real, median: real)

  /** `calculate_best_prices`; None is the division by a zero tick. */
  function BestPrices(bid1: real, ask1: real, tick: real): Option<Best> {
    var median := MedianPrice(bid1, ask1);
    if median - bid1 < tick then Some(Best(bid1, bid1 + tick, median))
    else if ask1 - median < tick then Some(Best(ask1 - tick, ask1, median))
    else
      var bid := HandlePcs(tick, median);
      if bid.None? then None else Some(Best(bid.value, bid.value + tick, median))
  }

  /** For every non-crossed positive book the best prices are one tick apart and straddle the
      median, and they stay inside the book exactly when the spread is at least a tick. */
  lemma BestPricesExact(bid1: real, ask1: real, tick: real)
    requires 0.0 < bid1 <= ask1 && tick > 0.0
    ensures BestPrices(bid1, ask1, tick).Some?
    ensures var b := BestPrices(bid1, ask1, tick).value;
            && b.ask - b.bid == tick
            && b.median == (bid1 + ask1) / 2.0 && b.bid <= b.median < b.ask
            && bid1 <= b.bid
            && (b.ask <= ask1 <==> ask1 - bid1 >= tick)
            && (if ask1 - bid1 < 2.0 * tick then b.bid == bid1 else IsMultiple(b.bid, tick))
  {
    HandlePcsExact(tick, MedianPrice(bid1, ask1));
    hide HandlePcs, IsMultiple;
  }

  /** Both halves of the spread are equal, so the branch for a narrow upper half is dead. */
  lemma MiddleBranchIsDead(bid1: real, ask1: real, tick: real)
    ensures MedianPrice(bid1, ask1) - bid1 == ask1 - MedianPrice(bid1, ask1)
    ensures BestPrices(bid1, ask1, tick) ==
            if ask1 - bid1 < 2.0 * tick then Some(Best(bid1, bid1 + tick, MedianPrice(bid1, ask1)))
            else if HandlePcs(tick, MedianPrice(bid1, ask1)).None? then None
            else var bid := HandlePcs(tick, MedianPrice(bid1, ask1)).value;
                 Some(Best(bid, bid + tick, MedianPrice(bid1, ask1)))
  {
    hide HandlePcs;
  }

  // ---------------------------------------------------------------- depth totals

  datatype Level = Level(price: real, volume: real)

  datatype Side = Bid | Ask

  datatype Totals = Totals(amount: real, volume: real)

  /** The test of the summing loops. */
  predicate Inside(side: Side, price: real, bound: real) {
    if side.Bid? then price >= bound else price <= bound
  }

  /** Best price first. */
  ghost predicate BestFirst(side: Side, levels: seq<Level>) {
    forall i, j :: 0 <= i < j < |levels| ==> Inside(side, levels[i].price, levels[j].price)
  }

  ghost predicate NonNegative(levels: seq<Level>) {
    forall i :: 0 <= i < |levels| ==> levels[i].price > 0.0 && levels[i].volume >= 0.0
  }

  /** The totals of all levels. */
  function Sum(levels: seq<Level>): Totals {
    if levels == [] then Totals(0.0, 0.0)
    else
      var rest, last := Sum(levels[..|levels| - 1]), levels[|levels| - 1];
      Totals(rest.amount + last.volume * last.price, rest.volume + last.volume)
  }

  /** One level totals its price times its volume, and its volume. */
  lemma SumOfOne(level: Level)
    ensures Sum([level]) == Totals(level.price * level.volume, level.volume)
  {
    assert [level][..0] == [];
    assert Sum([]) == Totals(0.0, 0.0);
  }

  /** The totals of two parts add up. */
  lemma {:induction false} SumAdds(a: seq<Level>, b: seq<Level>)
    ensures var (x, y) := (Sum(a), Sum(b)); Sum(a + b) == Totals(x.amount + y.amount, x.volume + y.volume)
    decreases b
  {
    if b == [] {
      assert a + b == a;
    } else {
      var front, last := b[..|b| - 1], b[|b| - 1];
      assert (a + b)[..|a + b| - 1] == a + front && (a + b)[|a + b| - 1] == last;
      SumAdds(a, front);
    }
  }

  /** The levels the loop adds up. */
  function Kept(side: Side, levels: seq<Level>, bound: real): (kept: seq<Level>) {
    if levels == [] then []
    else
      var rest, last := Kept(side, levels[..|levels| - 1], bound), levels[|levels| - 1];
      if Inside(side, last.price, bound) then rest + [last] else rest
  }

  /** Each level is kept or not by its own price, and the order stays. */
  lemma {:induction false} KeptLevelByLevel(side: Side, a: seq<Level>, level: Level, b: seq<Level>, bound: real)
    ensures Kept(side, a + b, bound) == Kept(side, a, bound) + Kept(side, b, bound)
    ensures Kept(side, [level], bound) ==
            if (if side.Bid? then level.price >= bound else level.price <= bound) then [level] else []
    decreases b
  {
    assert [level][..0] == [];
    assert Kept(side, [], bound) == [];
    if b == [] {
      assert a + b == a;
    } else {
      var front, last := b[..|b| - 1], b[|b| - 1];
      assert (a + b)[..|a + b| - 1] == a + front && (a + b)[|a + b| - 1] == last;
      KeptLevelByLevel(side, a, level, front, bound);
      var kept := Kept(side, a, bound);
      assert kept + (Kept(side, front, bound) + [last]) == (kept + Kept(side, front, bound)) + [last];
    }
  }

  lemma NothingKept(side: Side, bound: real)
    ensures Sum(Kept(side, [], bound)) == Totals(0.0, 0.0)
  {
  }

  lemma OneMore(side: Side, levels: seq<Level>, bound: real, i: nat)
    requires i < |levels|
    ensures var (t, level) := (Sum(Kept(side, levels[..i], bound)), levels[i]);
            Sum(Kept(side, levels[..i + 1], bound)) ==
            if !Inside(side, level.price, bound) then t
            else Totals(t.amount + level.volume * level.price, t.volume + level.volume)
  {
    assert levels[..i + 1][..i] == levels[..i];
    var kept := Kept(side, levels[..i], bound);
    assert (kept + [levels[i]])[..|kept|] == kept;
  }

  /** One summing loop. */
  method SumLevels(side: Side, levels: seq<Level>, bound: real) returns (amount: real, volume: real)
    ensures Totals(amount, volume) == Sum(Kept(side, levels, bound))
  {
    hide Sum, Kept;
    amount, volume := 0.0, 0.0;
    NothingKept(side, bound);
    assert levels[..0] == [];
    for i := 0 to |levels|
      invariant Totals(amount, volume) == Sum(Kept(side, levels[..i], bound))
    {
      OneMore(side, levels, bound, i);
      if Inside(side, levels[i].price, bound) {
        amount := amount + levels[i].volume * levels[i].price;
        volume := volume + levels[i].volume;
      }
    }
    assert levels[..|levels|] == levels;
  }

  /** The length of the longest prefix inside the bound. */
  function Reach(side: Side, levels: seq<Level>, bound: real): (k: nat)
    ensures k <= |levels|
    ensures forall i :: 0 <= i < k ==> Inside(side, levels[i].price, bound)
    ensures k < |levels| ==> !Inside(side, levels[k].price, bound)
  {
    if levels == [] || !Inside(side, levels[0].price, bound) then 0
    else
      1 + Reach(side, levels[1..], bound)
  }

  /** On a book sorted best first the loop adds up exactly the longest prefix inside the
      bound. */
  lemma {:induction false} KeptIsPrefix(side: Side, levels: seq<Level>, bound: real)
    requires BestFirst(side, levels)
    ensures Kept(side, levels, bound) == levels[..Reach(side, levels, bound)]
  {
    var k := Reach(side, levels, bound);
    KeptUpTo(side, levels, bound, k, |levels|);
    assert levels[..|levels|] == levels;
  }

  lemma {:induction false} KeptUpTo(side: Side, levels: seq<Level>, bound: real, k: nat, n: nat)
    requires BestFirst(side, levels) && k == Reach(side, levels, bound) && n <= |levels|
    ensures Kept(side, levels[..n], bound) == levels[..if n < k then n else k]
  {
    if n > 0 {
      KeptUpTo(side, levels, bound, k, n - 1);
      assert levels[..n][..n - 1] == levels[..n - 1];
      if n > k {
        assert !Inside(side, levels[n - 1].price, bound);
      }
    }
  }

  /** Every level of the sequence is priced between the two. */
  ghost predicate PricedWithin(levels: seq<Level>, low: real, high: real) {
    forall i :: 0 <= i < |levels| ==> low <= levels[i].price <= high && levels[i].volume >= 0.0
  }

  /** The amount is worth between the two prices for each unit of volume. */
  predicate ValuedWithin(t: Totals, low: real, high: real) {
    0.0 <= t.volume && low * t.volume <= t.amount <= high * t.volume
  }

  lemma {:induction false} SumWithin(levels: seq<Level>, low: real, high: real)
    requires PricedWithin(levels, low, high)
    ensures ValuedWithin(Sum(levels), low, high)
  {
    if levels != [] {
      var last := levels[|levels| - 1];
      SumWithin(levels[..|levels| - 1], low, high);
      AddLevel(Sum(levels[..|levels| - 1]), last, low, high);
      hide ValuedWithin;
    }
  }

  lemma AddLevel(t: Totals, level: Level, low: real, high: real)
    requires ValuedWithin(t, low, high) && low <= level.price <= high && level.volume >= 0.0
    ensures ValuedWithin(Totals(t.amount + level.volume * level.price, t.volume + level.volume), low, high)
  {
    ScaleLevel(level, low, high);
    assert low * (t.volume + level.volume) == low * t.volume + low * level.volume;
    assert high * (t.volume + level.volume) == high * t.volume + high * level.volume;
  }

  lemma ScaleLevel(level: Level, low: real, high: real)
    requires low <= level.price <= high && level.volume >= 0.0
    ensures low * level.volume <= level.volume * level.price <= high * level.volume
  {
  }

  /** The amount lies between the volume at the bound and the volume at the best price. */
  lemma TotalsWithinBounds(side: Side, levels: seq<Level>, bound: real)
    requires |levels| > 0 && BestFirst(side, levels) && NonNegative(levels)
    ensures var t := Sum(Kept(side, levels, bound)); var best := levels[0].price;
            if side.Bid? then ValuedWithin(t, bound, best) else ValuedWithin(t, best, bound)
  {
    KeptIsPrefix(side, levels, bound);
    var kept := Kept(side, levels, bound);
    var best := levels[0].price;
    PrefixPriced(side, levels, bound);
    SumWithin(kept, if side.Bid? then bound else best, if side.Bid? then best else bound);
    hide *;
  }

  lemma PrefixPriced(side: Side, levels: seq<Level>, bound: real)
    requires |levels| > 0 && BestFirst(side, levels) && NonNegative(levels)
    ensures var kept := levels[..Reach(side, levels, bound)]; var best := levels[0].price;
            if side.Bid? then PricedWithin(kept, bound, best) else PricedWithin(kept, best, bound)
  {
  }

  lemma {:induction false} SumGrows(levels: seq<Level>, a: nat, b: nat)
    requires a <= b <= |levels| && NonNegative(levels)
    ensures Sum(levels[..a]).volume <= Sum(levels[..b]).volume
    ensures Sum(levels[..a]).amount <= Sum(levels[..b]).amount
    decreases b - a
  {
    if a < b {
      SumGrows(levels, a, b - 1);
      assert levels[..b][..b - 1] == levels[..b - 1];
    }
  }

  function LowerBound(median: real, pct: real): real { median * (1.0 - pct / 100.0) }

  function UpperBound(median: real, pct: real): real { median * (1.0 + pct / 100.0) }

  function Bound(side: Side, median: real, pct: real): real {
    if side.Bid? then LowerBound(median, pct) else UpperBound(median, pct)
  }

  lemma BoundWidens(side: Side, median: real, narrow: real, wide: real)
    requires median > 0.0 && narrow <= wide
    ensures Inside(side, Bound(side, median, narrow), Bound(side, median, wide))
  {
    assert median * (narrow / 100.0) <= median * (wide / 100.0);
  }

  /** Totals never shrink as the depth percentage grows. */
  lemma DepthIsMonotone(side: Side, levels: seq<Level>, median: real, narrow: real, wide: real)
    requires BestFirst(side, levels) && NonNegative(levels) && median > 0.0 && narrow <= wide
    ensures var a := Sum(Kept(side, levels, Bound(side, median, narrow)));
            var b := Sum(Kept(side, levels, Bound(side, median, wide)));
            a.amount <= b.amount && a.volume <= b.volume
  {
    var n, w := Bound(side, median, narrow), Bound(side, median, wide);
    KeptIsPrefix(side, levels, n);
    KeptIsPrefix(side, levels, w);
    BoundWidens(side, median, narrow, wide);
    hide Bound;
    var k := Reach(side, levels, w);
    SumGrows(levels, Reach(side, levels, n), k);
  }

  /** The best level of each side is counted exactly when the spread, in percent of the
      median, is at most twice the depth percentage. */
  lemma BestLevelCountedExact(bid1: real, ask1: real, pct: real)
    requires 0.0 < bid1 <= ask1
    ensures var median := MedianPrice(bid1, ask1); var counted := 100.0 * (ask1 - bid1) / median <= 2.0 * pct;
            && (Inside(Bid, bid1, LowerBound(median, pct)) <==> counted)
            && (Inside(Ask, ask1, UpperBound(median, pct)) <==> counted)
  {
    var median := MedianPrice(bid1, ask1);
    var spread := ask1 - bid1;
    SpreadPct(spread, pct, median);
    assert bid1 == median - spread / 2.0 && ask1 == median + spread / 2.0;
    assert LowerBound(median, pct) == median - median * (pct / 100.0);
    assert UpperBound(median, pct) == median + median * (pct / 100.0);
  }

  lemma SpreadPct(spread: real, pct: real, median: real)
    requires median > 0.0
    ensures 100.0 * spread / median <= 2.0 * pct <==> spread / 2.0 <= median * (pct / 100.0)
  {
    var r := 100.0 * spread / median;
    assert r * median == 100.0 * spread;
    CompareScaled(r, 2.0 * pct, median);
    assert 2.0 * pct * median == 200.0 * (median * (pct / 100.0));
  }

  // ---------------------------------------------------------------- compute_depth

  /** `round(x, 2)` of the exact value: to the nearest hundredth, ties to the even one. */
  function Round2(x: real): real {
    var f := (100.0 * x).Floor;
    var up := 100.0 * x - f as real > 0.5 || (100.0 * x - f as real == 0.5 && f % 2 == 1);
    (if up then f + 1 else f) as real / 100.0
  }

  lemma Round2Near(x: real)
    ensures x - 0.005 <= Round2(x) <= x + 0.005
    ensures x >= 0.0 ==> Round2(x) == 0.0 || Round2(x) >= 0.01
  {
  }

  datatype Depth = Depth(bid: Totals, ask: Totals, lower: real, upper: real)

  function Percent(part: real, median: real): real
    requires median != 0.0
  {
    Round2(100.0 * part / median)
  }

  /** The bounds of the three branches: the special instrument, the percentage, and best
      prices; None is a zero tick. */
  function Bounds(special: bool, bid1: real, ask1: real, tick: real, pct: real): Option<(real, real)>
    requires MedianPrice(bid1, ask1) != 0.0
  {
    var median := MedianPrice(bid1, ask1);
    if !special && Percent(tick, median) <= pct then Some((LowerBound(median, pct), UpperBound(median, pct)))
    else
      var best := BestPrices(bid1, ask1, tick);
      if best.None? then None
      else if special then Some((best.value.bid - tick, best.value.ask + tick))
      else Some((best.value.bid, best.value.ask))
  }

  /** The totals of one side: summed within the bound, or in the last branch those of the
      best level when spread and tick round to the same percentage. */
  function SideTotals(side: Side, special: bool, levels: seq<Level>, bound: real,
                      tickPct: real, spread: real, pct: real): Totals
    requires |levels| > 0
  {
    if special || tickPct <= pct then Sum(Kept(side, levels, bound))
    else if spread == tickPct then Sum(levels[..1])
    else Totals(0.0, 0.0)
  }

  /** What `compute_depth` returns. */
  datatype Report = Report(
    bidDepth: int, askDepth: int, bidVolume: real, askVolume: real,
    spread: real, tickPct: real, lower: real, upper: real)

  /** `compute_depth` for the price of the pair's quote coin, None when the pair has no quote
      or its coin no price. The result None is the DataTypeException. */
  method ComputeDepth(special: bool, bids: seq<Level>, asks: seq<Level>, tick: real, pct: real,
                      quotePrice: Option<real>)
    returns (report: Option<Report>)
    ensures report.None? <==>
            || |bids| == 0 || |asks| == 0 || MedianPrice(bids[0].price, asks[0].price) == 0.0
            || Bounds(special, bids[0].price, asks[0].price, tick, pct).None?
            || quotePrice.None?
    ensures report.Some? ==> report.value == ReportOf(special, bids, asks, tick, pct, quotePrice.value)
    ensures report.Some? && IsBook(bids, asks) && tick > 0.0 ==>
              bids[0].price > 0.0 && asks[0].price > 0.0
              && Describes(report.value, special, bids, asks, tick, pct, quotePrice.value)
  {
    if |bids| == 0 || |asks| == 0 {
      return None;
    }
    var bid1, ask1 := bids[0], asks[0];
    var median := MedianPrice(bid1.price, ask1.price);
    if median == 0.0 {
      return None;
    }
    var spread := Percent(ask1.price - bid1.price, median);
    var tickPct := Percent(tick, median);
    var bounds := Bounds(special, bid1.price, ask1.price, tick, pct);
    if bounds.None? {
      return None;
    }
    var (lower, upper) := bounds.value;
    var bidAmount, bidVolume, askAmount, askVolume := 0.0, 0.0, 0.0, 0.0;
    if special || tickPct <= pct {
      bidAmount, bidVolume := SumLevels(Bid, bids, lower);
      askAmount, askVolume := SumLevels(Ask, asks, upper);
    } else if spread == tickPct {
      OneLevel(bids);
      OneLevel(asks);
      bidAmount, askAmount := bid1.volume * bid1.price, ask1.volume * ask1.price;
      bidVolume, askVolume := bid1.volume, ask1.volume;
    }
    if quotePrice.None? {
      return None;
    }
    hide Percent, Bounds, MedianPrice, Converted;
    ghost var d := Depth(Totals(bidAmount, bidVolume), Totals(askAmount, askVolume), lower, upper);
    assert d == DepthOf(special, bids, asks, tick, pct);
    hide DepthOf;
    var bidDepth, askDepth := Converted(bidAmount, quotePrice.value), Converted(askAmount, quotePrice.value);
    report := Some(Report(bidDepth, askDepth, bidVolume, askVolume, spread, tickPct, lower, upper));
    hide ReportOf, Describes, IsBook;
    if IsBook(bids, asks) && tick > 0.0 {
      ReportDescribes(special, bids, asks, tick, pct, quotePrice.value);
    }
  }

  /** An amount in the quote coin's price, truncated. */
  function Converted(amount: real, quotePrice: real): int {
    Trunc(amount * quotePrice)
  }

  lemma OneLevel(levels: seq<Level>)
    requires |levels| > 0
    ensures Sum(levels[..1]) == Totals(levels[0].volume * levels[0].price, levels[0].volume)
  {
    assert levels[..1][..0] == [];
    assert Sum([]) == Totals(0.0, 0.0);
  }

  function DepthOf(special: bool, bids: seq<Level>, asks: seq<Level>, tick: real, pct: real): Depth
    requires |bids| > 0 && |asks| > 0 && MedianPrice(bids[0].price, asks[0].price) != 0.0
    requires Bounds(special, bids[0].price, asks[0].price, tick, pct).Some?
  {
    var median := MedianPrice(bids[0].price, asks[0].price);
    var spread := Percent(asks[0].price - bids[0].price, median);
    var tickPct := Percent(tick, median);
    var (lower, upper) := Bounds(special, bids[0].price, asks[0].price, tick, pct).value;
    Depth(
      SideTotals(Bid, special, bids, lower, tickPct, spread, pct),
      SideTotals(Ask, special, asks, upper, tickPct, spread, pct),
      lower, upper)
  }

  /** The totals, with the amounts converted. */
  function ReportOf(special: bool, bids: seq<Level>, asks: seq<Level>, tick: real, pct: real, quotePrice: real): Report
    requires |bids| > 0 && |asks| > 0 && MedianPrice(bids[0].price, asks[0].price) != 0.0
    requires Bounds(special, bids[0].price, asks[0].price, tick, pct).Some?
  {
    var median := MedianPrice(bids[0].price, asks[0].price);
    var d := DepthOf(special, bids, asks, tick, pct);
    Report(
      Converted(d.bid.amount, quotePrice), Converted(d.ask.amount, quotePrice), d.bid.volume, d.ask.volume,
      Percent(asks[0].price - bids[0].price, median), Percent(tick, median), d.lower, d.upper)
  }

  // ---------------------------------------------------------------- what a report says

  /** Toward zero: the whole number next to x on the side of zero. */
  predicate Truncates(n: int, x: real) {
    if x >= 0.0 then n as real <= x < n as real + 1.0 else n as real - 1.0 < x <= n as real
  }

  /** A whole number of hundredths, as near to x as can be. */
  predicate Rounds(r: real, x: real) {
    100.0 * r == (100.0 * r).Floor as real && x - 0.005 <= r <= x + 0.005
  }

  /** The part in percent of the median, to the nearest hundredth. */
  predicate IsPercent(r: real, part: real, median: real) {
    median != 0.0 && Rounds(r, 100.0 * part / median)
  }

  /** The bounds lie this many percent below and above the median. */
  predicate PercentAround(lower: real, upper: real, median: real, pct: real) {
    lower == median * (1.0 - pct / 100.0) && upper == median * (1.0 + pct / 100.0)
  }

  /** A depth and a volume that stand for these totals at this price of the quote coin. */
  predicate Stands(depth: int, volume: real, t: Totals, quotePrice: real) {
    Truncates(depth, t.amount * quotePrice) && volume == t.volume
  }

  /** A positive book that is not crossed, best prices first. */
  ghost predicate IsBook(bids: seq<Level>, asks: seq<Level>) {
    && |bids| > 0 && |asks| > 0 && bids[0].price <= asks[0].price
    && BestFirst(Bid, bids) && NonNegative(bids) && BestFirst(Ask, asks) && NonNegative(asks)
  }

  /** Both bounds are a tick apart: the best bid and the price above it when the spread is
      below two ticks, and otherwise the ticks around the median. */
  ghost predicate AroundMedian(lower: real, upper: real, bid1: real, ask1: real, tick: real)
    requires tick > 0.0
  {
    && upper == lower + tick
    && (if ask1 - bid1 < 2.0 * tick then lower == bid1
        else IsMultiple(lower, tick) && lower <= (bid1 + ask1) / 2.0 < upper)
  }

  ghost predicate BoundsDescribed(r: Report, special: bool, bid1: real, ask1: real, tick: real, pct: real)
    requires tick > 0.0
  {
    if special then AroundMedian(r.lower + tick, r.upper - tick, bid1, ask1, tick)
    else if r.tickPct <= pct then PercentAround(r.lower, r.upper, (bid1 + ask1) / 2.0, pct)
    else AroundMedian(r.lower, r.upper, bid1, ask1, tick)
  }

  /** Within the bounds the depths stand for the longest prefix of each side, and otherwise
      for the best level when spread and tick come to the same hundredths, or for nothing. */
  predicate DepthsDescribed(r: Report, special: bool, bids: seq<Level>, asks: seq<Level>, pct: real, quotePrice: real)
    requires |bids| > 0 && |asks| > 0
  {
    if special || r.tickPct <= pct then
      && Stands(r.bidDepth, r.bidVolume, Sum(bids[..Reach(Bid, bids, r.lower)]), quotePrice)
      && Stands(r.askDepth, r.askVolume, Sum(asks[..Reach(Ask, asks, r.upper)]), quotePrice)
    else if r.spread == r.tickPct then
      && Stands(r.bidDepth, r.bidVolume, Totals(bids[0].price * bids[0].volume, bids[0].volume), quotePrice)
      && Stands(r.askDepth, r.askVolume, Totals(asks[0].price * asks[0].volume, asks[0].volume), quotePrice)
    else
      r.bidDepth == 0 && r.bidVolume == 0.0 && r.askDepth == 0 && r.askVolume == 0.0
  }

  /** The report describes the book: percentages to the nearest hundredth, the bounds of the
      branch, and the depths inside them in whole units of the quote coin's price. */
  ghost predicate Describes(r: Report, special: bool, bids: seq<Level>, asks: seq<Level>, tick: real, pct: real,
                            quotePrice: real)
    requires |bids| > 0 && |asks| > 0 && tick > 0.0
  {
    var (bid1, ask1) := (bids[0].price, asks[0].price);
    && IsPercent(r.spread, ask1 - bid1, (bid1 + ask1) / 2.0)
    && IsPercent(r.tickPct, tick, (bid1 + ask1) / 2.0)
    && BoundsDescribed(r, special, bid1, ask1, tick, pct)
    && DepthsDescribed(r, special, bids, asks, pct, quotePrice)
  }

  lemma Round2Rounds(x: real)
    ensures Rounds(Round2(x), x)
  {
    var f := (100.0 * x).Floor;
    assert 100.0 * Round2(x) == f as real || 100.0 * Round2(x) == (f + 1) as real;
  }

  lemma TruncTruncates(x: real)
    ensures Truncates(Trunc(x), x)
  {
    TruncBounds(x);
    hide Trunc;
  }

  lemma ConvertedStands(t: Totals, quotePrice: real)
    ensures Stands(Converted(t.amount, quotePrice), t.volume, t, quotePrice)
  {
    var worth := t.amount * quotePrice;
    TruncTruncates(worth);
    assert Converted(t.amount, quotePrice) == Trunc(worth);
    hide Trunc;
  }

  /** The best prices, and what the two branches that use them make of them. */
  lemma BestAroundMedian(bid1: real, ask1: real, tick: real)
    requires 0.0 < bid1 <= ask1 && tick > 0.0
    ensures BestPrices(bid1, ask1, tick).Some?
    ensures var b := BestPrices(bid1, ask1, tick).value; AroundMedian(b.bid, b.ask, bid1, ask1, tick)
  {
    BestPricesExact(bid1, ask1, tick);
    hide BestPrices, IsMultiple;
  }

  lemma BoundsMean(special: bool, bid1: real, ask1: real, tick: real, pct: real)
    requires 0.0 < bid1 <= ask1 && tick > 0.0
    ensures Bounds(special, bid1, ask1, tick, pct).Some?
    ensures var median := MedianPrice(bid1, ask1);
            var (lower, upper) := Bounds(special, bid1, ask1, tick, pct).value;
            if special then AroundMedian(lower + tick, upper - tick, bid1, ask1, tick)
            else if Percent(tick, median) <= pct then PercentAround(lower, upper, median, pct)
            else AroundMedian(lower, upper, bid1, ask1, tick)
  {
    BestAroundMedian(bid1, ask1, tick);
    var b := BestPrices(bid1, ask1, tick).value;
    assert b.bid - tick + tick == b.bid && b.ask + tick - tick == b.ask;
    hide BestPrices, Percent, AroundMedian;
  }

  lemma ReportBounds(special: bool, bids: seq<Level>, asks: seq<Level>, tick: real, pct: real, quotePrice: real)
    requires IsBook(bids, asks) && tick > 0.0
    ensures bids[0].price > 0.0 && asks[0].price > 0.0
    ensures Bounds(special, bids[0].price, asks[0].price, tick, pct).Some?
    ensures var r := ReportOf(special, bids, asks, tick, pct, quotePrice);
            && IsPercent(r.spread, asks[0].price - bids[0].price, (bids[0].price + asks[0].price) / 2.0)
            && IsPercent(r.tickPct, tick, (bids[0].price + asks[0].price) / 2.0)
            && BoundsDescribed(r, special, bids[0].price, asks[0].price, tick, pct)
  {
    var (bid1, ask1) := (bids[0].price, asks[0].price);
    assert 0.0 < bid1 <= ask1 && MedianPrice(bid1, ask1) > 0.0;
    BoundsMean(special, bid1, ask1, tick, pct);
    ReportFields(special, bids, asks, tick, pct, quotePrice);
    PercentRounds(ask1 - bid1, bid1, ask1);
    PercentRounds(tick, bid1, ask1);
    hide ReportOf, Bounds, Percent, IsPercent, PercentAround, AroundMedian, BestFirst, NonNegative;
  }

  lemma PercentRounds(part: real, bid1: real, ask1: real)
    requires 0.0 < bid1 <= ask1
    ensures IsPercent(Percent(part, MedianPrice(bid1, ask1)), part, MedianPrice(bid1, ask1))
  {
    Round2Rounds(100.0 * part / MedianPrice(bid1, ask1));
    hide Round2, Rounds;
  }

  lemma ReportFields(special: bool, bids: seq<Level>, asks: seq<Level>, tick: real, pct: real, quotePrice: real)
    requires |bids| > 0 && |asks| > 0 && MedianPrice(bids[0].price, asks[0].price) != 0.0
    requires Bounds(special, bids[0].price, asks[0].price, tick, pct).Some?
    ensures var r := ReportOf(special, bids, asks, tick, pct, quotePrice);
            var median := MedianPrice(bids[0].price, asks[0].price);
            && r.spread == Percent(asks[0].price - bids[0].price, median) && r.tickPct == Percent(tick, median)
            && (r.lower, r.upper) == Bounds(special, bids[0].price, asks[0].price, tick, pct).value
  {
    hide Bounds, Percent, MedianPrice, SideTotals, Converted;
  }

  lemma ReportDepths(special: bool, bids: seq<Level>, asks: seq<Level>, tick: real, pct: real, quotePrice: real)
    requires IsBook(bids, asks) && tick > 0.0
    requires MedianPrice(bids[0].price, asks[0].price) != 0.0
    requires Bounds(special, bids[0].price, asks[0].price, tick, pct).Some?
    ensures DepthsDescribed(
              ReportOf(special, bids, asks, tick, pct, quotePrice), special, bids, asks, pct, quotePrice)
  {
    var d := DepthOf(special, bids, asks, tick, pct);
    hide Bounds, Percent, BestFirst, NonNegative, Kept, Sum, Stands, Converted, MedianPrice;
    KeptIsPrefix(Bid, bids, d.lower);
    KeptIsPrefix(Ask, asks, d.upper);
    OneLevel(bids);
    OneLevel(asks);
    ConvertedStands(d.bid, quotePrice);
    ConvertedStands(d.ask, quotePrice);
    NothingConverted(quotePrice);
  }

  lemma NothingConverted(quotePrice: real)
    ensures Converted(0.0, quotePrice) == 0
  {
  }

  /** Every report on a positive book that is not crossed describes it. */
  lemma ReportDescribes(special: bool, bids: seq<Level>, asks: seq<Level>, tick: real, pct: real, quotePrice: real)
    requires IsBook(bids, asks) && tick > 0.0
    ensures bids[0].price > 0.0 && asks[0].price > 0.0
    ensures Bounds(special, bids[0].price, asks[0].price, tick, pct).Some?
    ensures Describes(ReportOf(special, bids, asks, tick, pct, quotePrice), special, bids, asks, tick, pct, quotePrice)
  {
    ReportBounds(special, bids, asks, tick, pct, quotePrice);
    ReportDepths(special, bids, asks, tick, pct, quotePrice);
    hide ReportOf, Bounds, BoundsDescribed, DepthsDescribed, IsPercent, BestFirst;
  }

  /** A book whose spread is one tick shows at least its best level on both sides, in every
      branch and for every depth percentage of at least a quarter of a hundredth. */
  lemma OneTickBookIsSeen(special: bool, bids: seq<Level>, asks: seq<Level>, tick: real, pct: real)
    requires |bids| > 0 && |asks| > 0 && tick > 0.0 && pct >= 0.0025
    requires BestFirst(Bid, bids) && NonNegative(bids) && BestFirst(Ask, asks) && NonNegative(asks)
    requires asks[0].price - bids[0].price == tick
    ensures Bounds(special, bids[0].price, asks[0].price, tick, pct).Some?
    ensures var d := DepthOf(special, bids, asks, tick, pct);
            && d.bid.volume >= bids[0].volume && d.bid.amount >= bids[0].volume * bids[0].price
            && d.ask.volume >= asks[0].volume && d.ask.amount >= asks[0].volume * asks[0].price
  {
    OneTickBounds(special, bids[0].price, asks[0].price, tick, pct);
    var (lower, upper) := Bounds(special, bids[0].price, asks[0].price, tick, pct).value;
    hide Bounds, Percent;
    SeenSide(Bid, bids, lower);
    SeenSide(Ask, asks, upper);
    OneLevel(bids);
    OneLevel(asks);
    hide Kept, Sum, BestFirst, NonNegative;
  }

  lemma SeenSide(side: Side, levels: seq<Level>, bound: real)
    requires |levels| > 0 && BestFirst(side, levels) && NonNegative(levels)
    requires Inside(side, levels[0].price, bound)
    ensures Sum(Kept(side, levels, bound)).volume >= levels[0].volume
    ensures Sum(Kept(side, levels, bound)).amount >= levels[0].volume * levels[0].price
  {
    KeptIsPrefix(side, levels, bound);
    OneLevel(levels);
    SumGrows(levels, 1, Reach(side, levels, bound));
  }

  lemma OneTickBounds(special: bool, bid1: real, ask1: real, tick: real, pct: real)
    requires 0.0 < bid1 && tick > 0.0 && ask1 - bid1 == tick && pct >= 0.0025
    ensures Bounds(special, bid1, ask1, tick, pct).Some?
    ensures var (lower, upper) := Bounds(special, bid1, ask1, tick, pct).value;
            Inside(Bid, bid1, lower) && Inside(Ask, ask1, upper)
  {
    var median := MedianPrice(bid1, ask1);
    Round2Near(100.0 * tick / median);
    BestLevelCountedExact(bid1, ask1, pct);
    hide Round2, LowerBound, UpperBound;
  }

  // ---------------------------------------------------------------- wider is not less

  /** Neither total of one is above the other's. */
  predicate NoMore(a: Totals, b: Totals) {
    a.amount <= b.amount && a.volume <= b.volume
  }

  /** Totals never shrink as the depth percentage grows, through the switch from best prices
      to the percentage, on every non-crossed positive book. */
  lemma DepthOfIsMonotone(special: bool, bids: seq<Level>, asks: seq<Level>, tick: real, narrow: real, wide: real)
    requires |bids| > 0 && |asks| > 0 && tick > 0.0 && 0.0 <= narrow <= wide
    requires BestFirst(Bid, bids) && NonNegative(bids) && BestFirst(Ask, asks) && NonNegative(asks)
    requires bids[0].price <= asks[0].price
    ensures Bounds(special, bids[0].price, asks[0].price, tick, narrow).Some?
    ensures Bounds(special, bids[0].price, asks[0].price, tick, wide).Some?
    ensures var d, d' := DepthOf(special, bids, asks, tick, narrow), DepthOf(special, bids, asks, tick, wide);
            NoMore(d.bid, d'.bid) && NoMore(d.ask, d'.ask)
  {
    var bid1, ask1 := bids[0].price, asks[0].price;
    assert 0.0 < bid1;
    BoundsExist(special, bid1, ask1, tick, narrow);
    BoundsExist(special, bid1, ask1, tick, wide);
    SideIsMonotone(Bid, special, bids, bid1, ask1, tick, narrow, wide);
    SideIsMonotone(Ask, special, asks, bid1, ask1, tick, narrow, wide);
    hide Bounds, Percent, SideTotals, MedianPrice, BestFirst, NonNegative, NoMore, IsSide;
  }

  lemma TruncGrows(a: real, b: real)
    requires a <= b
    ensures Trunc(a) <= Trunc(b)
  {
  }

  /** So do the reported depths, for every quote price that is not negative. */
  lemma ReportIsMonotone(special: bool, bids: seq<Level>, asks: seq<Level>, tick: real,
                         narrow: real, wide: real, quotePrice: real)
    requires |bids| > 0 && |asks| > 0 && tick > 0.0 && 0.0 <= narrow <= wide && quotePrice >= 0.0
    requires BestFirst(Bid, bids) && NonNegative(bids) && BestFirst(Ask, asks) && NonNegative(asks)
    requires bids[0].price <= asks[0].price
    ensures Bounds(special, bids[0].price, asks[0].price, tick, narrow).Some?
    ensures Bounds(special, bids[0].price, asks[0].price, tick, wide).Some?
    ensures var r := ReportOf(special, bids, asks, tick, narrow, quotePrice);
            var r' := ReportOf(special, bids, asks, tick, wide, quotePrice);
            && r.bidDepth <= r'.bidDepth && r.askDepth <= r'.askDepth
            && r.bidVolume <= r'.bidVolume && r.askVolume <= r'.askVolume
  {
    DepthOfIsMonotone(special, bids, asks, tick, narrow, wide);
    hide *;
    var d, d' := DepthOf(special, bids, asks, tick, narrow), DepthOf(special, bids, asks, tick, wide);
    AmountsGrow(d.bid, d'.bid, quotePrice);
    AmountsGrow(d.ask, d'.ask, quotePrice);
    ReportedAs(special, bids, asks, tick, narrow, quotePrice);
    ReportedAs(special, bids, asks, tick, wide, quotePrice);
  }

  lemma ReportedAs(special: bool, bids: seq<Level>, asks: seq<Level>, tick: real, pct: real, quotePrice: real)
    requires |bids| > 0 && |asks| > 0 && MedianPrice(bids[0].price, asks[0].price) != 0.0
    requires Bounds(special, bids[0].price, asks[0].price, tick, pct).Some?
    ensures var d := DepthOf(special, bids, asks, tick, pct);
            var r := ReportOf(special, bids, asks, tick, pct, quotePrice);
            && r.bidDepth == Converted(d.bid.amount, quotePrice) && r.askDepth == Converted(d.ask.amount, quotePrice)
            && r.bidVolume == d.bid.volume && r.askVolume == d.ask.volume
  {
    hide DepthOf, Bounds, MedianPrice, Converted;
  }

  lemma AmountsGrow(a: Totals, b: Totals, quotePrice: real)
    requires NoMore(a, b) && quotePrice >= 0.0
    ensures Converted(a.amount, quotePrice) <= Converted(b.amount, quotePrice) && a.volume <= b.volume
  {
    assert b.amount * quotePrice - a.amount * quotePrice == (b.amount - a.amount) * quotePrice;
    TruncGrows(a.amount * quotePrice, b.amount * quotePrice);
    hide Trunc;
  }

  lemma BoundsExist(special: bool, bid1: real, ask1: real, tick: real, pct: real)
    requires 0.0 < bid1 <= ask1 && tick > 0.0
    ensures Bounds(special, bid1, ask1, tick, pct).Some?
  {
    BestPricesExact(bid1, ask1, tick);
    hide BestPrices, Percent;
  }

  function SideBound(side: Side, bounds: (real, real)): real {
    if side.Bid? then bounds.0 else bounds.1
  }

  ghost predicate SideGrows(side: Side, special: bool, levels: seq<Level>, bid1: real, ask1: real, tick: real,
                            narrow: real, wide: real)
    requires |levels| > 0 && MedianPrice(bid1, ask1) != 0.0
    requires Bounds(special, bid1, ask1, tick, narrow).Some? && Bounds(special, bid1, ask1, tick, wide).Some?
  {
    var median := MedianPrice(bid1, ask1);
    var spread, tickPct := Percent(ask1 - bid1, median), Percent(tick, median);
    var n := SideBound(side, Bounds(special, bid1, ask1, tick, narrow).value);
    var w := SideBound(side, Bounds(special, bid1, ask1, tick, wide).value);
    NoMore(SideTotals(side, special, levels, n, tickPct, spread, narrow),
           SideTotals(side, special, levels, w, tickPct, spread, wide))
  }

  /** One side of a non-crossed positive book. */
  ghost predicate IsSide(side: Side, levels: seq<Level>, bid1: real, ask1: real) {
    && 0.0 < bid1 <= ask1 && |levels| > 0 && BestFirst(side, levels) && NonNegative(levels)
    && levels[0].price == if side.Bid? then bid1 else ask1
  }

  lemma SideIsMonotone(side: Side, special: bool, levels: seq<Level>, bid1: real, ask1: real, tick: real,
                       narrow: real, wide: real)
    requires |levels| > 0 && IsSide(side, levels, bid1, ask1) && MedianPrice(bid1, ask1) != 0.0
    requires tick > 0.0 && 0.0 <= narrow <= wide
    requires Bounds(special, bid1, ask1, tick, narrow).Some? && Bounds(special, bid1, ask1, tick, wide).Some?
    ensures SideGrows(side, special, levels, bid1, ask1, tick, narrow, wide)
  {
    hide *;
    var tickPct := Percent(tick, MedianPrice(bid1, ask1));
    if !special && tickPct <= narrow {
      GrowsWithinPercent(side, levels, bid1, ask1, tick, narrow, wide);
    } else if !special && tickPct <= wide {
      GrowsIntoPercent(side, levels, bid1, ask1, tick, narrow, wide);
    } else {
      GrowsNot(side, special, levels, bid1, ask1, tick, narrow, wide);
    }
  }

  lemma PercentBounds(side: Side, bid1: real, ask1: real, tick: real, pct: real)
    requires MedianPrice(bid1, ask1) != 0.0 && Percent(tick, MedianPrice(bid1, ask1)) <= pct
    ensures Bounds(false, bid1, ask1, tick, pct).Some?
    ensures SideBound(side, Bounds(false, bid1, ask1, tick, pct).value) == Bound(side, MedianPrice(bid1, ask1), pct)
  {
    hide Percent, LowerBound, UpperBound, BestPrices;
  }

  lemma GrowsWithinPercent(side: Side, levels: seq<Level>, bid1: real, ask1: real, tick: real, narrow: real, wide: real)
    requires IsSide(side, levels, bid1, ask1) && MedianPrice(bid1, ask1) != 0.0 && narrow <= wide
    requires Percent(tick, MedianPrice(bid1, ask1)) <= narrow
    requires Bounds(false, bid1, ask1, tick, narrow).Some? && Bounds(false, bid1, ask1, tick, wide).Some?
    ensures SideGrows(side, false, levels, bid1, ask1, tick, narrow, wide)
  {
    var median := MedianPrice(bid1, ask1);
    assert median > 0.0;
    DepthIsMonotone(side, levels, median, narrow, wide);
    PercentBounds(side, bid1, ask1, tick, narrow);
    PercentBounds(side, bid1, ask1, tick, wide);
    hide Percent, IsSide, Kept, Sum, MedianPrice, Bounds, Bound, SideBound;
  }

  lemma GrowsIntoPercent(side: Side, levels: seq<Level>, bid1: real, ask1: real, tick: real, narrow: real, wide: real)
    requires IsSide(side, levels, bid1, ask1) && MedianPrice(bid1, ask1) != 0.0 && tick > 0.0 && 0.0 <= narrow
    requires narrow < Percent(tick, MedianPrice(bid1, ask1)) <= wide
    requires Bounds(false, bid1, ask1, tick, narrow).Some? && Bounds(false, bid1, ask1, tick, wide).Some?
    ensures SideGrows(side, false, levels, bid1, ask1, tick, narrow, wide)
  {
    var median := MedianPrice(bid1, ask1);
    WideShowsBest(bid1, ask1, tick, narrow, wide);
    PercentBounds(side, bid1, ask1, tick, wide);
    ShowsSomething(side, levels, Bound(side, median, wide));
    OneLevel(levels);
    hide Percent, BestFirst, NonNegative, Kept, Sum, MedianPrice, Bounds, Bound, SideBound;
  }

  /** Totals are not negative, and cover the best level when it is inside. */
  lemma ShowsSomething(side: Side, levels: seq<Level>, bound: real)
    requires |levels| > 0 && BestFirst(side, levels) && NonNegative(levels)
    ensures var t := Sum(Kept(side, levels, bound));
            && NoMore(Totals(0.0, 0.0), t)
            && (Inside(side, levels[0].price, bound) ==> NoMore(Sum(levels[..1]), t))
  {
    hide Kept, Sum, BestFirst, NonNegative, Reach, Inside;
    KeptIsPrefix(side, levels, bound);
    var k := Reach(side, levels, bound);
    SumGrows(levels, 0, k);
    EmptySum(levels);
    if Inside(side, levels[0].price, bound) {
      ReachesFirst(side, levels, bound);
      SumGrows(levels, 1, k);
    }
  }

  lemma EmptySum(levels: seq<Level>)
    ensures Sum(levels[..0]) == Totals(0.0, 0.0)
  {
  }

  lemma ReachesFirst(side: Side, levels: seq<Level>, bound: real)
    requires |levels| > 0 && Inside(side, levels[0].price, bound)
    ensures 1 <= Reach(side, levels, bound) <= |levels|
  {
  }

  lemma GrowsNot(side: Side, special: bool, levels: seq<Level>, bid1: real, ask1: real, tick: real,
                 narrow: real, wide: real)
    requires |levels| > 0 && MedianPrice(bid1, ask1) != 0.0 && narrow <= wide
    requires special || Percent(tick, MedianPrice(bid1, ask1)) > wide
    requires Bounds(special, bid1, ask1, tick, narrow).Some? && Bounds(special, bid1, ask1, tick, wide).Some?
    ensures SideGrows(side, special, levels, bid1, ask1, tick, narrow, wide)
  {
    hide Percent, Kept, Sum, MedianPrice, BestPrices;
  }

  /** When spread and tick round to the same percentage, a depth of at least that percentage
      reaches the best levels. */
  lemma WideShowsBest(bid1: real, ask1: real, tick: real, narrow: real, wide: real)
    requires 0.0 < bid1 <= ask1 && tick > 0.0 && 0.0 <= narrow
    requires var median := MedianPrice(bid1, ask1); narrow < Percent(tick, median) <= wide
    ensures var median := MedianPrice(bid1, ask1);
            Percent(ask1 - bid1, median) == Percent(tick, median) ==>
              && Inside(Bid, bid1, Bound(Bid, median, wide)) && Inside(Ask, ask1, Bound(Ask, median, wide))
  {
    var median := MedianPrice(bid1, ask1);
    Round2Near(100.0 * tick / median);
    Round2Near(100.0 * (ask1 - bid1) / median);
    assert 100.0 * tick / median >= 0.0;
    BestLevelCountedExact(bid1, ask1, wide);
    hide Round2, LowerBound, UpperBound;
  }
}
