/** The price levels of a bar as facts about the ticks of the bar. */
module BarLevels {
  import opened BarTypes
  import Reals
  import opened Ticks
  import Grid

  /** Rounding to the nearest integer, halves away from zero. */
  function Round(x: real): int {
    if x >= 0.0 then (x + 0.5).Floor else -((0.5 - x).Floor)
  }

  /** The multiple of the tick size nearest to a price. */
  function Rounded(price: real, tickSize: real): real
    requires tickSize > 0.0
  {
    Grid.Price(Round(price / tickSize), tickSize)
  }

  /** The ticks whose price rounds to `p`. */
  function AtPrice(ticks: seq<Tick>, p: real, tickSize: real): seq<Tick>
    requires tickSize > 0.0
  {
    if ticks == [] then []
    else
      var rest, t := AtPrice(ticks[..|ticks| - 1], p, tickSize), ticks[|ticks| - 1];
      if Rounded(t.price, tickSize) == p then rest + [t] else rest
  }

  ghost predicate Distinct(levels: seq<Level>) {
    forall i, j | 0 <= i < j < |levels| :: levels[i].price != levels[j].price
  }

  ghost predicate Ascending(levels: seq<Level>) {
    forall i, j | 0 <= i < j < |levels| :: levels[i].price < levels[j].price
  }

  /** The figures of a level are those of the ticks at its price. */
  ghost predicate LevelMeans(l: Level, ticks: seq<Tick>, tickSize: real)
    requires tickSize > 0.0
  {
    && l.askVol == Total(AtPrice(ticks, l.price, tickSize), AskVolume)
    && l.bidVol == Total(AtPrice(ticks, l.price, tickSize), BidVolume)
    && l.totalVol == l.askVol + l.bidVol
    && l.delta == l.askVol - l.bidVol
  }

  predicate HasPrice(levels: seq<Level>, p: real) {
    exists i :: 0 <= i < |levels| && levels[i].price == p
  }

  ghost predicate Traded(ticks: seq<Tick>, p: real, tickSize: real)
    requires tickSize > 0.0
  {
    exists k :: 0 <= k < |ticks| && Rounded(ticks[k].price, tickSize) == p
  }

  /** There is exactly one level for each price that was traded, and each level has the
      volumes traded at its price. */
  ghost predicate LevelsMean(levels: seq<Level>, ticks: seq<Tick>, tickSize: real)
    requires tickSize > 0.0
  {
    && Distinct(levels)
    && (forall i | 0 <= i < |levels| :: LevelMeans(levels[i], ticks, tickSize))
    && (forall p :: HasPrice(levels, p) <==> Traded(ticks, p, tickSize))
  }

  lemma AtPriceSnoc(ticks: seq<Tick>, t: Tick, p: real, tickSize: real)
    requires tickSize > 0.0
    ensures AtPrice(ticks + [t], p, tickSize) ==
            AtPrice(ticks, p, tickSize) + if Rounded(t.price, tickSize) == p then [t] else []
  {
    assert (ticks + [t])[..|ticks|] == ticks;
  }

  lemma TradedSnoc(ticks: seq<Tick>, t: Tick, p: real, tickSize: real)
    requires tickSize > 0.0
    ensures Traded(ticks + [t], p, tickSize) <==> Traded(ticks, p, tickSize) || Rounded(t.price, tickSize) == p
  {
    var all := ticks + [t];
    if Traded(ticks, p, tickSize) {
      var k :| 0 <= k < |ticks| && Rounded(ticks[k].price, tickSize) == p;
      assert all[k] == ticks[k];
    }
    assert all[|ticks|] == t;
    if Traded(all, p, tickSize) && Rounded(t.price, tickSize) != p {
      var k :| 0 <= k < |all| && Rounded(all[k].price, tickSize) == p;
      assert all[k] == ticks[k];
    }
  }

  /** What one more tick does to the figures of a level. */
  lemma LevelSnoc(l: Level, ticks: seq<Tick>, t: Tick, tickSize: real)
    requires tickSize > 0.0
    ensures Rounded(t.price, tickSize) != l.price ==>
              (LevelMeans(l, ticks + [t], tickSize) <==> LevelMeans(l, ticks, tickSize))
    ensures Rounded(t.price, tickSize) == l.price && LevelMeans(l, ticks, tickSize) ==>
              LevelMeans(Count(l, t), ticks + [t], tickSize)
  {
    var p := l.price;
    AtPriceSnoc(ticks, t, p, tickSize);
    assert AtPrice(ticks, p, tickSize) + [] == AtPrice(ticks, p, tickSize);
    TotalSnoc(AtPrice(ticks, p, tickSize), t, AskVolume);
    TotalSnoc(AtPrice(ticks, p, tickSize), t, BidVolume);
  }

  /** A level after one more tick at its price. */
  function Count(l: Level, t: Tick): (r: Level)
    ensures r.price == l.price && r.isPoc == l.isPoc
  {
    var ask, bid := l.askVol + AskVolume(t), l.bidVol + BidVolume(t);
    l.(askVol := ask, bidVol := bid, totalVol := ask + bid, delta := ask - bid)
  }

  /** A price that was not traded has no volume. */
  lemma {:induction false} NotTraded(ticks: seq<Tick>, p: real, tickSize: real)
    requires tickSize > 0.0 && !Traded(ticks, p, tickSize)
    ensures AtPrice(ticks, p, tickSize) == []
  {
    if ticks == [] {
    } else {
      var n := |ticks| - 1;
      assert ticks == ticks[..n] + [ticks[n]];
      TradedSnoc(ticks[..n], ticks[n], p, tickSize);
      NotTraded(ticks[..n], p, tickSize);
    }
  }

  /** A tolerance of a hundredth of a tick finds a level exactly when it has the price. */
  lemma ToleranceExact(levels: seq<Level>, ticks: seq<Tick>, i: nat, price: real, tickSize: real)
    requires tickSize > 0.0 && LevelsMean(levels, ticks, tickSize) && i < |levels|
    ensures Reals.Abs(levels[i].price - Rounded(price, tickSize)) < tickSize * 0.01 <==>
            levels[i].price == Rounded(price, tickSize)
  {
    assert HasPrice(levels, levels[i].price);
    var k :| 0 <= k < |ticks| && Rounded(ticks[k].price, tickSize) == levels[i].price;
    Grid.LevelTolerance(Round(ticks[k].price / tickSize), Round(price / tickSize), tickSize);
  }

  /** The level of a tick's price, which is created when it is missing. */
  method GetOrCreateLevel(levels: seq<Level>, price: real, tickSize: real, ghost ticks: seq<Tick>)
    returns (r: seq<Level>, at: nat)
    requires tickSize > 0.0 && LevelsMean(levels, ticks, tickSize)
    ensures at < |r| && r[at].price == Rounded(price, tickSize)
    ensures if HasPrice(levels, Rounded(price, tickSize)) then r == levels
            else r == levels + [Level(Rounded(price, tickSize), 0, 0, 0, 0, false)]
  {
    var rounded := Rounded(price, tickSize);
    for i := 0 to |levels|
      invariant forall j | 0 <= j < i :: levels[j].price != rounded
    {
      ToleranceExact(levels, ticks, i, price, tickSize);
      if Reals.Abs(levels[i].price - rounded) < tickSize * 0.01 {
        return levels, i;
      }
    }
    r, at := levels + [Level(rounded, 0, 0, 0, 0, false)], |levels|;
  }

  /** The levels after a tick is counted in its level. */
  lemma LevelsSnoc(levels: seq<Level>, ticks: seq<Tick>, t: Tick, tickSize: real, r: seq<Level>, at: nat)
    requires tickSize > 0.0 && LevelsMean(levels, ticks, tickSize)
    requires at < |r| && r[at].price == Rounded(t.price, tickSize)
    requires if HasPrice(levels, r[at].price) then r == levels
             else r == levels + [Level(r[at].price, 0, 0, 0, 0, false)]
    ensures LevelsMean(r[at := Count(r[at], t)], ticks + [t], tickSize)
  {
    var p, after := r[at].price, r[at := Count(r[at], t)];
    if !HasPrice(levels, p) {
      NotTraded(ticks, p, tickSize);
      assert forall i | 0 <= i < |levels| :: levels[i].price != p;
      assert at == |levels|;
    }
    forall i | 0 <= i < |after| ensures LevelMeans(after[i], ticks + [t], tickSize) {
      assert LevelMeans(r[i], ticks, tickSize);
      LevelSnoc(r[i], ticks, t, tickSize);
    }
    forall q ensures HasPrice(after, q) <==> Traded(ticks + [t], q, tickSize) {
      TradedSnoc(ticks, t, q, tickSize);
      SamePrices(r, after, q);
      PricesOfExtended(levels, r, at, q);
    }
  }

  lemma SamePrices(a: seq<Level>, b: seq<Level>, p: real)
    requires |a| == |b| && forall i | 0 <= i < |a| :: a[i].price == b[i].price
    ensures HasPrice(a, p) <==> HasPrice(b, p)
  {}

  lemma PricesOfExtended(levels: seq<Level>, r: seq<Level>, at: nat, p: real)
    requires at < |r| && (r == levels || r == levels + [r[at]])
    ensures HasPrice(r, p) <==> HasPrice(levels, p) || p == r[at].price
  {
    if r == levels {
      assert p == r[at].price ==> HasPrice(levels, p);
    } else {
      assert r[|levels|] == r[at];
      assert forall i | 0 <= i < |levels| :: r[i] == levels[i];
      if HasPrice(levels, p) {
        var i :| 0 <= i < |levels| && levels[i].price == p;
        assert r[i].price == p;
      }
    }
  }

  /** Insertion into an ascending list. */
  function Insert(levels: seq<Level>, l: Level): (r: seq<Level>)
    ensures multiset(r) == multiset(levels) + multiset{l}
  {
    if levels == [] || l.price < levels[0].price then [l] + levels
    else
      assert levels == [levels[0]] + levels[1..];
      [levels[0]] + Insert(levels[1..], l)
  }

  /** The levels in ascending price. */
  function SortByPrice(levels: seq<Level>): (r: seq<Level>)
    ensures multiset(r) == multiset(levels)
  {
    if levels == [] then []
    else
      var n := |levels| - 1;
      assert levels == levels[..n] + [levels[n]];
      Insert(SortByPrice(levels[..n]), levels[n])
  }

  lemma {:induction false} InsertAscending(levels: seq<Level>, l: Level)
    requires Ascending(levels) && forall i | 0 <= i < |levels| :: levels[i].price != l.price
    ensures Ascending(Insert(levels, l))
  {
    if levels == [] || l.price < levels[0].price {
    } else {
      var r := Insert(levels[1..], l);
      InsertAscending(levels[1..], l);
      forall x | x in r ensures levels[0].price < x.price {
        assert x in multiset(r);
        assert x == l || x in levels[1..];
      }
      ConsAscending(levels[0], r);
    }
  }

  lemma ConsAscending(l: Level, r: seq<Level>)
    requires Ascending(r) && forall x | x in r :: l.price < x.price
    ensures Ascending([l] + r)
  {
    forall i, j | 0 <= i < j < |[l] + r| ensures ([l] + r)[i].price < ([l] + r)[j].price {
      assert ([l] + r)[j] == r[j - 1];
    }
  }

  lemma {:induction false} SortAscending(levels: seq<Level>)
    requires Distinct(levels)
    ensures Ascending(SortByPrice(levels))
  {
    if levels == [] {
    } else {
      var n := |levels| - 1;
      var sorted := SortByPrice(levels[..n]);
      SortAscending(levels[..n]);
      forall i | 0 <= i < |sorted| ensures sorted[i].price != levels[n].price {
        assert sorted[i] in multiset(sorted);
        assert sorted[i] in levels[..n];
      }
      InsertAscending(sorted, levels[n]);
    }
  }

  lemma SameMembers(a: seq<Level>, b: seq<Level>, x: Level)
    requires multiset(a) == multiset(b)
    ensures x in a <==> x in b
  {
    assert x in a <==> x in multiset(a);
    assert x in b <==> x in multiset(b);
  }

  lemma HasPriceMember(levels: seq<Level>, p: real)
    ensures HasPrice(levels, p) <==> exists l :: l in levels && l.price == p
  {
    if HasPrice(levels, p) {
      var i :| 0 <= i < |levels| && levels[i].price == p;
      assert levels[i] in levels;
    }
  }

  /** Sorting keeps what the levels mean. */
  lemma SortMeans(levels: seq<Level>, ticks: seq<Tick>, tickSize: real)
    requires tickSize > 0.0 && LevelsMean(levels, ticks, tickSize)
    ensures LevelsMean(SortByPrice(levels), ticks, tickSize) && Ascending(SortByPrice(levels))
  {
    var sorted := SortByPrice(levels);
    SortAscending(levels);
    forall x ensures x in sorted <==> x in levels {
      SameMembers(sorted, levels, x);
    }
    forall i | 0 <= i < |sorted| ensures LevelMeans(sorted[i], ticks, tickSize) {
      assert sorted[i] in levels;
    }
    forall p ensures HasPrice(sorted, p) <==> Traded(ticks, p, tickSize) {
      HasPriceMember(sorted, p);
      HasPriceMember(levels, p);
    }
  }

  /** The sum of a figure over all levels. */
  function Sum(levels: seq<Level>, f: Level -> int): int {
    if levels == [] then 0 else Sum(levels[..|levels| - 1], f) + f(levels[|levels| - 1])
  }

  function TotalVol(l: Level): int {
    l.totalVol
  }

  function LevelDelta(l: Level): int {
    l.delta
  }

  /** What a measure of ticks gives at the prices of the levels. */
  function SumAt(levels: seq<Level>, ticks: seq<Tick>, f: Tick -> int, tickSize: real): int
    requires tickSize > 0.0
  {
    if levels == [] then 0
    else SumAt(levels[..|levels| - 1], ticks, f, tickSize) +
         Total(AtPrice(ticks, levels[|levels| - 1].price, tickSize), f)
  }

  /** One more tick counts at one price only. */
  lemma {:induction false} SumAtSnoc(levels: seq<Level>, ticks: seq<Tick>, t: Tick, f: Tick -> int, tickSize: real)
    requires tickSize > 0.0 && Distinct(levels)
    ensures SumAt(levels, ticks + [t], f, tickSize) ==
            SumAt(levels, ticks, f, tickSize) + if HasPrice(levels, Rounded(t.price, tickSize)) then f(t) else 0
  {
    if levels == [] {
    } else {
      var n, p := |levels| - 1, Rounded(t.price, tickSize);
      var q := levels[n].price;
      SumAtSnoc(levels[..n], ticks, t, f, tickSize);
      assert levels == levels[..n] + [levels[n]];
      PricesOfExtended(levels[..n], levels, n, p);
      AtPriceSnoc(ticks, t, q, tickSize);
      if p == q {
        TotalSnoc(AtPrice(ticks, q, tickSize), t, f);
        assert !HasPrice(levels[..n], p);
      } else {
        assert AtPrice(ticks, q, tickSize) + [] == AtPrice(ticks, q, tickSize);
      }
    }
  }

  lemma {:induction false} SumAtNothing(levels: seq<Level>, f: Tick -> int, tickSize: real)
    requires tickSize > 0.0
    ensures SumAt(levels, [], f, tickSize) == 0
  {
    if levels == [] {
    } else {
      SumAtNothing(levels[..|levels| - 1], f, tickSize);
    }
  }

  /** Levels that hold every traded price account for every tick exactly once. */
  lemma {:induction false} SumAtAll(levels: seq<Level>, ticks: seq<Tick>, f: Tick -> int, tickSize: real)
    requires tickSize > 0.0 && Distinct(levels)
    requires forall k | 0 <= k < |ticks| :: HasPrice(levels, Rounded(ticks[k].price, tickSize))
    ensures SumAt(levels, ticks, f, tickSize) == Total(ticks, f)
  {
    if ticks == [] {
      SumAtNothing(levels, f, tickSize);
    } else {
      var n := |ticks| - 1;
      assert ticks == ticks[..n] + [ticks[n]];
      SumAtAll(levels, ticks[..n], f, tickSize);
      SumAtSnoc(levels, ticks[..n], ticks[n], f, tickSize);
    }
  }

  lemma {:induction false} SumsOfLevels(levels: seq<Level>, ticks: seq<Tick>, tickSize: real)
    requires tickSize > 0.0
    requires forall i | 0 <= i < |levels| :: LevelMeans(levels[i], ticks, tickSize)
    ensures Sum(levels, TotalVol) ==
            SumAt(levels, ticks, AskVolume, tickSize) + SumAt(levels, ticks, BidVolume, tickSize)
    ensures Sum(levels, LevelDelta) ==
            SumAt(levels, ticks, AskVolume, tickSize) - SumAt(levels, ticks, BidVolume, tickSize)
  {
    if levels == [] {
    } else {
      var n := |levels| - 1;
      SumsOfLevels(levels[..n], ticks, tickSize);
      assert LevelMeans(levels[n], ticks, tickSize);
    }
  }

  /** The level volumes of a bar sum to the volume of its ticks, and the level deltas to
      the delta that the delta engine reports for them. */
  lemma LevelsAddUp(levels: seq<Level>, ticks: seq<Tick>, tickSize: real)
    requires tickSize > 0.0 && LevelsMean(levels, ticks, tickSize)
    ensures Sum(levels, TotalVol) == Total(ticks, Volume)
    ensures Sum(levels, LevelDelta) == Delta(ticks)
  {
    forall k | 0 <= k < |ticks| ensures HasPrice(levels, Rounded(ticks[k].price, tickSize)) {
      assert Traded(ticks, Rounded(ticks[k].price, tickSize), tickSize);
    }
    SumsOfLevels(levels, ticks, tickSize);
    SumAtAll(levels, ticks, AskVolume, tickSize);
    SumAtAll(levels, ticks, BidVolume, tickSize);
    TotalsSplit(ticks);
  }

  /** Ticks that do not count have no delta, so a bar and the delta engine, which sees
      every tick, agree on the delta. */
  lemma {:induction false} DeltaOfAccumulatable(ticks: seq<Tick>)
    ensures Delta(Accumulatable(ticks)) == Delta(ticks)
  {
    if ticks == [] {
    } else {
      var n := |ticks| - 1;
      DeltaOfAccumulatable(ticks[..n]);
      var rest := Accumulatable(ticks[..n]);
      TotalSnoc(rest, ticks[n], SignedVolume);
      assert rest + [] == rest;
    }
  }

  ghost predicate IsHigh(high: real, ticks: seq<Tick>) {
    && (forall t | t in ticks :: t.price <= high)
    && (exists t :: t in ticks && t.price == high)
  }

  ghost predicate IsLow(low: real, ticks: seq<Tick>) {
    && (forall t | t in ticks :: low <= t.price)
    && (exists t :: t in ticks && t.price == low)
  }

  lemma RoundMonotone(x: real, y: real)
    requires x <= y
    ensures Round(x) <= Round(y)
  {}

  lemma RoundedMonotone(x: real, y: real, tickSize: real)
    requires tickSize > 0.0 && x <= y
    ensures Rounded(x, tickSize) <= Rounded(y, tickSize)
  {
    QuotientMonotone(x, y, tickSize);
    RoundMonotone(x / tickSize, y / tickSize);
    Grid.GridDifference(Round(x / tickSize), Round(y / tickSize), tickSize);
  }

  lemma QuotientMonotone(x: real, y: real, d: real)
    requires d > 0.0 && x <= y
    ensures x / d <= y / d
  {
    var p, q := x / d, y / d;
    assert p * d == x && q * d == y;
    assert (q - p) * d >= 0.0;
  }

  /** A price on the grid is its own rounding. */
  lemma OnGrid(i: int, tickSize: real)
    requires tickSize > 0.0
    ensures Rounded(Grid.Price(i, tickSize), tickSize) == Grid.Price(i, tickSize)
  {
    hide Grid.Price, Round;
    QuotientOfPrice(i, tickSize);
    RoundInteger(i);
  }

  lemma QuotientOfPrice(i: int, tickSize: real)
    requires tickSize > 0.0
    ensures Grid.Price(i, tickSize) / tickSize == i as real
  {
    Reals.QuotientOfProduct(i as real, tickSize, Grid.Price(i, tickSize));
  }

  lemma RoundInteger(i: int)
    ensures Round(i as real) == i
  {}

  /** The lowest and the highest level lie at the rounded low and high of the bar. */
  lemma ExtremeLevels(levels: seq<Level>, ticks: seq<Tick>, low: real, high: real, tickSize: real)
    requires tickSize > 0.0 && LevelsMean(levels, ticks, tickSize) && Ascending(levels)
    requires IsLow(low, ticks) && IsHigh(high, ticks)
    ensures levels != []
    ensures levels[0].price == Rounded(low, tickSize)
    ensures levels[|levels| - 1].price == Rounded(high, tickSize)
  {
    LevelOf(levels, ticks, low, tickSize);
    LevelOf(levels, ticks, high, tickSize);
    var n := |levels| - 1;
    TickOf(levels, ticks, 0, low, high, tickSize);
    TickOf(levels, ticks, n, low, high, tickSize);
  }

  lemma LevelOf(levels: seq<Level>, ticks: seq<Tick>, price: real, tickSize: real)
    requires tickSize > 0.0 && LevelsMean(levels, ticks, tickSize)
    requires exists t :: t in ticks && t.price == price
    ensures HasPrice(levels, Rounded(price, tickSize))
  {
    var t :| t in ticks && t.price == price;
    var k :| 0 <= k < |ticks| && ticks[k] == t;
    assert Traded(ticks, Rounded(ticks[k].price, tickSize), tickSize);
  }

  lemma TickOf(levels: seq<Level>, ticks: seq<Tick>, i: nat, low: real, high: real, tickSize: real)
    requires tickSize > 0.0 && LevelsMean(levels, ticks, tickSize) && i < |levels|
    requires IsLow(low, ticks) && IsHigh(high, ticks)
    ensures Rounded(low, tickSize) <= levels[i].price <= Rounded(high, tickSize)
  {
    assert HasPrice(levels, levels[i].price);
    var k :| 0 <= k < |ticks| && Rounded(ticks[k].price, tickSize) == levels[i].price;
    assert ticks[k] in ticks;
    RoundedMonotone(low, ticks[k].price, tickSize);
    RoundedMonotone(ticks[k].price, high, tickSize);
  }
}
