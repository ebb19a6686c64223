/** The volume-weighted average price and its bands, as facts about the whole history of
    trades that the engine was given. */
module Vwap {
  import opened Reals

  datatype Trade = Trade(price: real, volume: real)

  datatype Sums = Sums(volume: real, priceVolume: real, price2Volume: real)

  datatype VwapSnapshot = VwapSnapshot(
    vwap: real, stddev: real, upperBand1: real, lowerBand1: real,
    upperBand2: real, lowerBand2: real, totalVolume: real)

  /** The volume that a trade counts with: a trade without positive volume is ignored. */
  function Weight(t: Trade): (w: real)
    ensures w >= 0.0
  {
    if t.volume <= 0.0 then 0.0 else t.volume
  }

  function AddTrade(a: Sums, t: Trade): Sums {
    Sums(a.volume + Weight(t), a.priceVolume + t.price * Weight(t),
         a.price2Volume + t.price * t.price * Weight(t))
  }

  /** The three sums over a whole history. */
  function Totals(trades: seq<Trade>): (a: Sums)
    ensures a.volume >= 0.0
  {
    if trades == [] then Sums(0.0, 0.0, 0.0)
    else AddTrade(Totals(trades[..|trades| - 1]), trades[|trades| - 1])
  }

  function Mean(a: Sums): real
    requires a.volume > 0.0
  {
    a.priceVolume / a.volume
  }

  /** The mean square minus the squared mean. */
  function Variance(a: Sums): real
    requires a.volume > 0.0
  {
    a.price2Volume / a.volume - Mean(a) * Mean(a)
  }

  function Distance(t: Trade, m: real): real {
    Square(t.price - m) * Weight(t)
  }

  /** The volume-weighted squared distance of all trades from `m`. */
  ghost function Spread(trades: seq<Trade>, m: real): real {
    if trades == [] then 0.0
    else Spread(trades[..|trades| - 1], m) + Distance(trades[|trades| - 1], m)
  }

  function WeightOutside(t: Trade, low: real, high: real): real {
    if t.price < low || t.price > high then Weight(t) else 0.0
  }

  /** The volume traded strictly outside the prices from `low` to `high`. */
  ghost function VolumeOutside(trades: seq<Trade>, low: real, high: real): real {
    if trades == [] then 0.0
    else VolumeOutside(trades[..|trades| - 1], low, high) + WeightOutside(trades[|trades| - 1], low, high)
  }

  /** Every trade that counts has a price from `low` to `high`. */
  ghost predicate PricesWithin(trades: seq<Trade>, low: real, high: real) {
    forall t | t in trades && t.volume > 0.0 :: low <= t.price <= high
  }

  function Square(x: real): (r: real)
    ensures r >= 0.0
  {
    x * x
  }

  /** A figure summed over the trades of positive volume. */
  function SumCounted(trades: seq<Trade>, f: Trade -> real): real {
    if trades == [] then 0.0
    else
      var t := trades[|trades| - 1];
      SumCounted(trades[..|trades| - 1], f) + if t.volume > 0.0 then f(t) else 0.0
  }

  function Traded(t: Trade): real { t.volume }

  function Turnover(t: Trade): real { t.price * t.volume }

  function SquareTurnover(t: Trade): real { t.price * t.price * t.volume }

  /** The three sums of the engine: the volume of the trades of positive volume, and their prices
      and squared prices, each times its volume. */
  lemma {:induction false} TotalsMeaning(trades: seq<Trade>)
    ensures Totals(trades).volume == SumCounted(trades, Traded)
    ensures Totals(trades).priceVolume == SumCounted(trades, Turnover)
    ensures Totals(trades).price2Volume == SumCounted(trades, SquareTurnover)
  {
    if trades == [] {
    } else {
      TotalsMeaning(trades[..|trades| - 1]);
    }
  }

  lemma AddTwice(a: Sums, price: real, v: real, w: real)
    requires v > 0.0 && w > 0.0
    ensures AddTrade(AddTrade(a, Trade(price, v)), Trade(price, w)) == AddTrade(a, Trade(price, v + w))
  {
    assert price * price * (v + w) == price * price * v + price * price * w;
  }

  /** Two trades at a price count as one of their volumes together, wherever they stand in the
      history: every later snapshot is the same. */
  lemma {:induction false} SplitIrrelevant(before: seq<Trade>, price: real, v: real, w: real, after: seq<Trade>)
    requires v > 0.0 && w > 0.0
    ensures Totals(before + [Trade(price, v), Trade(price, w)] + after) ==
            Totals(before + [Trade(price, v + w)] + after)
  {
    hide Totals, AddTrade;
    var two, one := before + [Trade(price, v), Trade(price, w)], before + [Trade(price, v + w)];
    if after == [] {
      assert two + after == before + [Trade(price, v)] + [Trade(price, w)] && one + after == one;
      TotalsSnoc(before + [Trade(price, v)], Trade(price, w));
      TotalsSnoc(before, Trade(price, v));
      TotalsSnoc(before, Trade(price, v + w));
      AddTwice(Totals(before), price, v, w);
    } else {
      var rest, t := after[..|after| - 1], after[|after| - 1];
      assert two + after == two + rest + [t] && one + after == one + rest + [t];
      SplitIrrelevant(before, price, v, w, rest);
      TotalsSnoc(two + rest, t);
      TotalsSnoc(one + rest, t);
    }
  }

  lemma TwoSums(t: Trade, u: Trade)
    requires t.volume > 0.0 && u.volume > 0.0
    ensures var a := AddTrade(AddTrade(Totals([]), t), u);
            a.volume == t.volume + u.volume && a.priceVolume == t.price * t.volume + u.price * u.volume
  {}

  /** The average of two trades weighs each price with its volume. */
  lemma TwoTrades(p: real, v: real, q: real, w: real)
    requires v > 0.0 && w > 0.0
    ensures var a := Totals([Trade(p, v), Trade(q, w)]);
            a.volume == v + w && Mean(a) * (v + w) == p * v + q * w
  {
    var t, u := Trade(p, v), Trade(q, w);
    assert [] + [t] == [t] && [t] + [u] == [t, u];
    TotalsSnoc([], t);
    TotalsSnoc([t], u);
    TwoSums(t, u);
    hide Totals, AddTrade, Mean;
    MeanTimesVolume(Totals([t, u]));
  }

  class VwapEngine {
    var sumPriceVolume: real
    var sumPrice2Volume: real
    var sumVolume: real

    function State(): Sums
      reads this
    {
      Sums(sumVolume, sumPriceVolume, sumPrice2Volume)
    }

    constructor ()
      ensures State() == Totals([])
    {
      sumPriceVolume, sumPrice2Volume, sumVolume := 0.0, 0.0, 0.0;
    }

    method Reset()
      modifies this
      ensures State() == Totals([])
    {
      sumPriceVolume, sumPrice2Volume, sumVolume := 0.0, 0.0, 0.0;
    }

    /** Counts one more trade after the history `trades`. */
    method Add(price: real, volume: real, ghost trades: seq<Trade>)
      requires State() == Totals(trades)
      modifies this
      ensures State() == Totals(trades + [Trade(price, volume)])
      ensures volume <= 0.0 ==> State() == old(State())
      ensures volume > 0.0 ==>
                && sumVolume == old(sumVolume) + volume
                && sumPriceVolume == old(sumPriceVolume) + price * volume
                && sumPrice2Volume == old(sumPrice2Volume) + price * price * volume
    {
      hide Totals;
      TotalsSnoc(trades, Trade(price, volume));
      if volume <= 0.0 {
        return;
      }
      sumPriceVolume := sumPriceVolume + price * volume;
      sumPrice2Volume := sumPrice2Volume + price * price * volume;
      sumVolume := sumVolume + volume;
    }

    /** The average and its bands after the history `trades`; `root` is the square root
        that the library returns for the variance, cut off at zero. */
    method Snapshot(root: real, ghost trades: seq<Trade>) returns (s: VwapSnapshot)
      requires State() == Totals(trades)
      requires sumVolume > 0.0 ==> root >= 0.0 && Square(root) == if Variance(State()) < 0.0 then 0.0 else Variance(State())
      ensures s.totalVolume == Totals(trades).volume == SumCounted(trades, Traded)
      ensures s.totalVolume > 0.0 ==> s.vwap * s.totalVolume == SumCounted(trades, Turnover)
      ensures s.totalVolume == 0.0 ==> s == VwapSnapshot(0.0, 0.0, 0.0, 0.0, 0.0, 0.0, 0.0)
      ensures s.totalVolume > 0.0 ==> Describes(s, trades)
    {
      TotalsMeaning(trades);
      hide Totals, SumCounted;
      s := VwapSnapshot(0.0, 0.0, 0.0, 0.0, 0.0, 0.0, sumVolume);
      if sumVolume <= 0.0 {
        return;
      }
      var vwap := sumPriceVolume / sumVolume;
      var stddev := root;
      s := VwapSnapshot(vwap, stddev, vwap + stddev, vwap - stddev,
                        vwap + 2.0 * stddev, vwap - 2.0 * stddev, sumVolume);
      BandsDescribe(trades, s);
    }
  }

  lemma TotalsSnoc(trades: seq<Trade>, t: Trade)
    ensures Totals(trades + [t]) == AddTrade(Totals(trades), t)
  {
    assert (trades + [t])[..|trades|] == trades;
  }

  /** What a snapshot says about the history it was taken from: the average lies within
      every price range that holds the trades, the deviation is the volume-weighted
      deviation of the trades from the average, and at most a quarter of the volume lies
      outside the outer bands. */
  ghost predicate Describes(s: VwapSnapshot, trades: seq<Trade>) {
    && s.vwap * s.totalVolume == Totals(trades).priceVolume
    && s.stddev >= 0.0
    && Square(s.stddev) * s.totalVolume == Spread(trades, s.vwap)
    && s.upperBand1 - s.vwap == s.stddev == s.vwap - s.lowerBand1
    && s.upperBand2 - s.vwap == 2.0 * s.stddev == s.vwap - s.lowerBand2
    && (forall low, high | PricesWithin(trades, low, high) ::
          low <= s.vwap <= high && Square(s.stddev) <= (high - s.vwap) * (s.vwap - low))
    && 4.0 * VolumeOutside(trades, s.lowerBand2, s.upperBand2) <= s.totalVolume
  }

  lemma SquareZero()
    ensures Square(0.0) == 0.0
  {}

  lemma Scaled(x: real, w: real)
    requires w >= 0.0
    ensures Square(x) * w >= 0.0
  {
    NonNegativeProduct(Square(x), w);
  }

  lemma NonZeroSquare(x: real, s: real)
    requires x != 0.0 && s == Square(x)
    ensures s > 0.0
  {
    NonZeroProduct(x, x, s);
  }

  lemma SquarePositive(x: real)
    requires x != 0.0
    ensures Square(x) > 0.0
  {
    NonZeroSquare(x, Square(x));
  }

  /** The spread about `m` in terms of the three sums. */
  ghost function SpreadOf(a: Sums, m: real): real {
    a.price2Volume - 2.0 * m * a.priceVolume + m * m * a.volume
  }

  lemma SpreadStep(a: Sums, t: Trade, m: real)
    ensures SpreadOf(AddTrade(a, t), m) == SpreadOf(a, m) + Distance(t, m)
  {}

  lemma {:induction false} SpreadFromSums(trades: seq<Trade>, m: real)
    ensures Spread(trades, m) == SpreadOf(Totals(trades), m)
  {
    if trades == [] {
    } else {
      var t, rest := trades[|trades| - 1], trades[..|trades| - 1];
      assert Spread(trades, m) == Spread(rest, m) + Distance(t, m);
      assert Totals(trades) == AddTrade(Totals(rest), t);
      hide *;
      SpreadFromSums(rest, m);
      SpreadStep(Totals(rest), t, m);
    }
  }

  lemma {:induction false} SpreadNonNegative(trades: seq<Trade>, m: real)
    ensures Spread(trades, m) >= 0.0
  {
    if trades == [] {
    } else {
      var t := trades[|trades| - 1];
      SpreadNonNegative(trades[..|trades| - 1], m);
      Scaled(t.price - m, Weight(t));
    }
  }

  lemma SpreadOverVolume(a: Sums)
    requires a.volume > 0.0
    ensures Variance(a) * a.volume == SpreadOf(a, Mean(a))
  {
    var m, square := Mean(a), a.price2Volume / a.volume;
    QuotientTimes(a.priceVolume, a.volume, m);
    QuotientTimes(a.price2Volume, a.volume, square);
    SpreadOverVolumeStep(a.price2Volume, a.priceVolume, a.volume, m, square);
  }

  lemma SpreadOverVolumeStep(p2: real, p: real, v: real, m: real, square: real)
    requires m * v == p && square * v == p2
    ensures (square - m * m) * v == p2 - 2.0 * m * p + m * m * v
  {
    assert m * p == m * m * v;
  }

  /** The variance that the sums give is the volume-weighted mean squared distance of
      the trades from their average. */
  lemma VarianceMeaning(trades: seq<Trade>)
    requires Totals(trades).volume > 0.0
    ensures Variance(Totals(trades)) * Totals(trades).volume == Spread(trades, Mean(Totals(trades)))
  {
    hide *;
    SpreadOverVolume(Totals(trades));
    SpreadFromSums(trades, Mean(Totals(trades)));
  }

  /** The mean square is never below the squared mean, so the cut-off at zero never acts. */
  lemma ClampIdle(trades: seq<Trade>)
    requires Totals(trades).volume > 0.0
    ensures Variance(Totals(trades)) >= 0.0
  {
    hide *;
    VarianceMeaning(trades);
    SpreadNonNegative(trades, Mean(Totals(trades)));
    Cancel(0.0, Variance(Totals(trades)), Totals(trades).volume);
  }

  ghost predicate SumsWithin(a: Sums, low: real, high: real) {
    low * a.volume <= a.priceVolume <= high * a.volume
  }

  lemma WithinStep(a: Sums, t: Trade, low: real, high: real)
    requires SumsWithin(a, low, high) && (t.volume > 0.0 ==> low <= t.price <= high)
    ensures SumsWithin(AddTrade(a, t), low, high)
  {
    var w := Weight(t);
    if w > 0.0 {
      assert low * w <= t.price * w <= high * w;
    }
    assert low * (a.volume + w) == low * a.volume + low * w;
    assert high * (a.volume + w) == high * a.volume + high * w;
  }

  lemma {:induction false} AllWithin(trades: seq<Trade>, low: real, high: real)
    requires PricesWithin(trades, low, high)
    ensures SumsWithin(Totals(trades), low, high)
  {
    if trades == [] {
    } else {
      var t, rest := trades[|trades| - 1], trades[..|trades| - 1];
      assert Totals(trades) == AddTrade(Totals(rest), t);
      assert PricesWithin(rest, low, high);
      assert t in trades;
      assert t.volume > 0.0 ==> low <= t.price <= high;
      hide *;
      AllWithin(rest, low, high);
      WithinStep(Totals(rest), t, low, high);
    }
  }

  lemma MeanOfWithin(a: Sums, low: real, high: real)
    requires a.volume > 0.0 && SumsWithin(a, low, high)
    ensures low <= Mean(a) <= high
  {
    QuotientTimes(a.priceVolume, a.volume, Mean(a));
    Cancel(low, Mean(a), a.volume);
    Cancel(Mean(a), high, a.volume);
  }

  /** The average lies between the lowest and the highest price that counts. */
  lemma MeanWithin(trades: seq<Trade>, low: real, high: real)
    requires Totals(trades).volume > 0.0 && PricesWithin(trades, low, high)
    ensures low <= Mean(Totals(trades)) <= high
  {
    hide *;
    AllWithin(trades, low, high);
    MeanOfWithin(Totals(trades), low, high);
  }

  /** The volume-weighted sum of the products of the distances to both ends of a range. */
  ghost function InnerProduct(a: Sums, low: real, high: real): real {
    (low + high) * a.priceVolume - a.price2Volume - low * high * a.volume
  }

  lemma InnerStep(a: Sums, t: Trade, low: real, high: real)
    requires t.volume > 0.0 ==> low <= t.price <= high
    ensures InnerProduct(AddTrade(a, t), low, high) >= InnerProduct(a, low, high)
  {
    var w := Weight(t);
    var product := (high - t.price) * (t.price - low);
    assert InnerProduct(AddTrade(a, t), low, high) == InnerProduct(a, low, high) + product * w;
    if w > 0.0 {
      NonNegativeProduct(high - t.price, t.price - low);
      NonNegativeProduct(product, w);
    }
  }

  lemma {:induction false} InnerNonNegative(trades: seq<Trade>, low: real, high: real)
    requires PricesWithin(trades, low, high)
    ensures InnerProduct(Totals(trades), low, high) >= 0.0
  {
    if trades == [] {
    } else {
      var t, rest := trades[|trades| - 1], trades[..|trades| - 1];
      assert Totals(trades) == AddTrade(Totals(rest), t);
      assert PricesWithin(rest, low, high);
      assert t in trades;
      assert t.volume > 0.0 ==> low <= t.price <= high;
      hide *;
      InnerNonNegative(rest, low, high);
      InnerStep(Totals(rest), t, low, high);
    }
  }

  lemma InnerBound(a: Sums, low: real, high: real)
    requires a.volume > 0.0 && InnerProduct(a, low, high) >= 0.0
    ensures Variance(a) <= (high - Mean(a)) * (Mean(a) - low)
  {
    var m, square := Mean(a), a.price2Volume / a.volume;
    QuotientTimes(a.priceVolume, a.volume, m);
    QuotientTimes(a.price2Volume, a.volume, square);
    InnerBoundStep(a.price2Volume, a.priceVolume, a.volume, m, square, low, high);
  }

  lemma InnerBoundStep(p2: real, p: real, v: real, m: real, square: real, low: real, high: real)
    requires v > 0.0 && m * v == p && square * v == p2
    requires (low + high) * p - p2 - low * high * v >= 0.0
    ensures square - m * m <= (high - m) * (m - low)
  {
    var gap := (low + high) * m - square - low * high;
    assert (low + high) * p == (low + high) * m * v;
    assert gap * v == (low + high) * p - p2 - low * high * v;
    Cancel(0.0, gap, v);
    assert (high - m) * (m - low) == (low + high) * m - m * m - low * high;
  }

  /** The variance is at most the product of the distances from the average to the two
      ends of any price range that holds all trades that count. */
  lemma VarianceBound(trades: seq<Trade>, low: real, high: real)
    requires Totals(trades).volume > 0.0 && PricesWithin(trades, low, high)
    ensures Variance(Totals(trades)) <= (high - Mean(Totals(trades))) * (Mean(Totals(trades)) - low)
  {
    hide *;
    InnerNonNegative(trades, low, high);
    InnerBound(Totals(trades), low, high);
  }

  /** Every trade outside a distance `d` from `m` adds its volume times at least the
      squared distance to the spread. */
  lemma {:induction false} SpreadOutside(trades: seq<Trade>, m: real, d: real)
    requires d >= 0.0
    ensures Square(d) * VolumeOutside(trades, m - d, m + d) <= Spread(trades, m)
  {
    if trades == [] {
    } else {
      var t, rest := trades[|trades| - 1], trades[..|trades| - 1];
      SpreadOutside(rest, m, d);
      OutsideStep(t, m, d);
      Distribute(Square(d), VolumeOutside(rest, m - d, m + d), WeightOutside(t, m - d, m + d));
    }
  }

  lemma Distribute(x: real, y: real, z: real)
    ensures x * (y + z) == x * y + x * z
  {}

  lemma OutsideStep(t: Trade, m: real, d: real)
    requires d >= 0.0
    ensures Square(d) * WeightOutside(t, m - d, m + d) <= Distance(t, m)
  {
    var x, w := t.price - m, Weight(t);
    Scaled(x, w);
    if x < -d || x > d {
      assert x * x - d * d == (x - d) * (x + d);
      assert (x * x - d * d) * w >= 0.0;
    }
  }

  /** Without spread about `m`, no volume is traded away from `m`. */
  lemma {:induction false} NoSpread(trades: seq<Trade>, m: real)
    requires Spread(trades, m) == 0.0
    ensures VolumeOutside(trades, m, m) == 0.0
  {
    if trades == [] {
    } else {
      var t, rest := trades[|trades| - 1], trades[..|trades| - 1];
      SpreadNonNegative(rest, m);
      Scaled(t.price - m, Weight(t));
      NoSpread(rest, m);
      ZeroProduct(t.price - m, Weight(t));
    }
  }

  lemma ZeroFactor(s: real, w: real)
    requires s > 0.0 && s * w == 0.0
    ensures w == 0.0
  {}

  lemma ZeroProduct(x: real, w: real)
    requires Square(x) * w == 0.0
    ensures x == 0.0 || w == 0.0
  {
    hide *;
    if x != 0.0 {
      SquarePositive(x);
      ZeroFactor(Square(x), w);
    }
  }

  /** At most a quarter of the volume lies strictly outside twice the deviation. */
  lemma QuarterOutside(trades: seq<Trade>, root: real)
    requires Totals(trades).volume > 0.0 && root >= 0.0 && Square(root) == Variance(Totals(trades))
    ensures var m := Mean(Totals(trades));
            4.0 * VolumeOutside(trades, m - 2.0 * root, m + 2.0 * root) <= Totals(trades).volume
  {
    hide *;
    VarianceMeaning(trades);
    QuarterAbout(trades, Mean(Totals(trades)), root, Totals(trades).volume);
  }

  lemma QuarterAbout(trades: seq<Trade>, m: real, root: real, v: real)
    requires v > 0.0 && root >= 0.0 && Square(root) * v == Spread(trades, m)
    ensures 4.0 * VolumeOutside(trades, m - 2.0 * root, m + 2.0 * root) <= v
  {
    hide *;
    if root == 0.0 {
      SquareZero();
      NoSpread(trades, m);
    } else {
      SpreadOutside(trades, m, 2.0 * root);
      QuarterStep(root, v, VolumeOutside(trades, m - 2.0 * root, m + 2.0 * root));
    }
  }

  lemma QuarterStep(root: real, v: real, out: real)
    requires root > 0.0 && Square(2.0 * root) * out <= Square(root) * v
    ensures 4.0 * out <= v
  {
    SquarePositive(root);
    SquareDouble(root);
    hide *;
    QuarterFactor(Square(root), v, out);
  }

  lemma SquareDouble(x: real)
    ensures Square(2.0 * x) == 4.0 * Square(x)
  {}

  lemma QuarterFactor(s: real, v: real, out: real)
    requires s > 0.0 && 4.0 * s * out <= s * v
    ensures 4.0 * out <= v
  {
    Cancel(4.0 * out, v, s);
  }

  lemma BandsDescribe(trades: seq<Trade>, s: VwapSnapshot)
    requires Totals(trades).volume > 0.0
    requires s.vwap == Mean(Totals(trades)) && s.totalVolume == Totals(trades).volume
    requires s.stddev >= 0.0
    requires Square(s.stddev) == var v := Variance(Totals(trades)); if v < 0.0 then 0.0 else v
    requires s.upperBand1 == s.vwap + s.stddev && s.lowerBand1 == s.vwap - s.stddev
    requires s.upperBand2 == s.vwap + 2.0 * s.stddev && s.lowerBand2 == s.vwap - 2.0 * s.stddev
    ensures Describes(s, trades)
  {
    hide Totals, Mean, Variance, Spread, VolumeOutside, Square, PricesWithin;
    ClampIdle(trades);
    VarianceMeaning(trades);
    MeanTimesVolume(Totals(trades));
    QuarterOutside(trades, s.stddev);
    forall low, high | PricesWithin(trades, low, high)
      ensures low <= s.vwap <= high && Square(s.stddev) <= (high - s.vwap) * (s.vwap - low)
    {
      MeanWithin(trades, low, high);
      VarianceBound(trades, low, high);
    }
  }

  lemma MeanTimesVolume(a: Sums)
    requires a.volume > 0.0
    ensures Mean(a) * a.volume == a.priceVolume
  {}
}
