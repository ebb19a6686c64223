/** The bars of a series as the input of the imbalance detector: every bar that a series
    ends is one that the zone theorems speak about. */
module BarZones {
  import opened BarLevels
  import opened BarProtocol
  import opened BarSeries
  import opened BarTypes
  import opened Ticks
  import Footprint
  import Grid
  import Runs
  import Zones
  import ZoneTheorems

  /** A price, a level and a bar counted in ticks. */
  function InTicks(price: real, tickSize: real): int
    requires tickSize > 0.0
  {
    Round(price / tickSize)
  }

  function GridLevels(levels: seq<Level>, tickSize: real): (g: seq<Footprint.Level>)
    requires tickSize > 0.0
    ensures |g| == |levels|
    ensures forall i | 0 <= i < |g| ::
              g[i] == Footprint.Level(InTicks(levels[i].price, tickSize), levels[i].bidVol, levels[i].askVol, false, false)
  {
    seq(|levels|, i requires 0 <= i < |levels| =>
      Footprint.Level(InTicks(levels[i].price, tickSize), levels[i].bidVol, levels[i].askVol, false, false))
  }

  /** The extremes of a bar in ticks; a low or high between two ticks stays there. */
  function GridBar(r: BarRecord, tickSize: real): Zones.Bar
    requires tickSize > 0.0
  {
    Zones.Bar(r.low / tickSize, r.high / tickSize, r.closeTs)
  }

  /** Counting in ticks loses nothing of a price on the grid. */
  lemma InTicksExact(i: int, tickSize: real)
    requires tickSize > 0.0
    ensures InTicks(Grid.Price(i, tickSize), tickSize) == i
  {
    hide Grid.Price, Round;
    QuotientOfPrice(i, tickSize);
    RoundInteger(i);
  }

  /** The price of a level is its number of ticks on the grid. */
  lemma LevelOnGrid(levels: seq<Level>, ticks: seq<Tick>, i: nat, tickSize: real)
    requires tickSize > 0.0 && LevelsMean(levels, ticks, tickSize) && i < |levels|
    ensures levels[i].price == Grid.Price(InTicks(levels[i].price, tickSize), tickSize)
  {
    assert HasPrice(levels, levels[i].price);
    var k :| 0 <= k < |ticks| && Rounded(ticks[k].price, tickSize) == levels[i].price;
    InTicksExact(Round(ticks[k].price / tickSize), tickSize);
  }

  lemma GridOrder(i: int, j: int, tickSize: real)
    requires tickSize > 0.0
    ensures Grid.Price(i, tickSize) < Grid.Price(j, tickSize) <==> i < j
    ensures Grid.Price(i, tickSize) <= Grid.Price(j, tickSize) <==> i <= j
  {
    Grid.GridDifference(i, j, tickSize);
  }

  lemma RoundNear(x: real)
    ensures x - 0.5 <= Round(x) as real <= x + 0.5
  {}

  /** The levels of a bar that has ended ascend from its rounded low to its rounded high,
      so they lie at most half a tick outside the bar. */
  lemma BarWellFormed(r: BarRecord, b: Bar, tickSize: real)
    requires tickSize > 0.0 && ClosedMeans(r, b, tickSize)
    ensures var g := GridLevels(r.levels, tickSize);
            && Footprint.Ascending(g)
            && (forall i | 0 <= i < |g| :: InTicks(r.low, tickSize) <= g[i].price <= InTicks(r.high, tickSize))
            && ZoneTheorems.NearBar(g, GridBar(r, tickSize))
  {
    hide Grid.Price, Round;
    var g := GridLevels(r.levels, tickSize);
    forall i, j | 0 <= i < j < |g| ensures g[i].price < g[j].price {
      LevelOnGrid(r.levels, b.ticks, i, tickSize);
      LevelOnGrid(r.levels, b.ticks, j, tickSize);
      GridOrder(g[i].price, g[j].price, tickSize);
    }
    forall i | 0 <= i < |g| ensures InTicks(r.low, tickSize) <= g[i].price <= InTicks(r.high, tickSize) {
      TickOf(r.levels, b.ticks, i, r.low, r.high, tickSize);
      LevelOnGrid(r.levels, b.ticks, i, tickSize);
      GridOrder(InTicks(r.low, tickSize), g[i].price, tickSize);
      GridOrder(g[i].price, InTicks(r.high, tickSize), tickSize);
    }
    RoundNear(r.low / tickSize);
    RoundNear(r.high / tickSize);
  }

  /** Every price of the bar is a multiple of the tick size. */
  ghost predicate OnGridTicks(ticks: seq<Tick>, tickSize: real) {
    forall t | t in ticks :: exists i: int :: t.price == Grid.Price(i, tickSize)
  }

  /** When every price is on the grid the levels lie within the bar. */
  lemma BarOnGrid(r: BarRecord, b: Bar, tickSize: real)
    requires tickSize > 0.0 && ClosedMeans(r, b, tickSize) && OnGridTicks(b.ticks, tickSize)
    ensures ZoneTheorems.WithinBar(GridLevels(r.levels, tickSize), GridBar(r, tickSize))
  {
    BarWellFormed(r, b, tickSize);
    var t :| t in b.ticks && t.price == r.low;
    var i: int :| t.price == Grid.Price(i, tickSize);
    var u :| u in b.ticks && u.price == r.high;
    var j: int :| u.price == Grid.Price(j, tickSize);
    hide Grid.Price, Round;
    QuotientOfPrice(i, tickSize);
    QuotientOfPrice(j, tickSize);
    InTicksExact(i, tickSize);
    InTicksExact(j, tickSize);
  }

  /** A bar that has ended, its record, its levels with their flags, and the ratio and the
      minimum count configured when the detector looks at it. */
  datatype Detected = Detected(bar: Bar, record: BarRecord, levels: seq<Footprint.Level>,
                               ratio: real, min: ZoneTheorems.Positive)

  ghost predicate WellDetected(d: Detected, tickSize: real)
    requires tickSize > 0.0
  {
    && ClosedMeans(d.record, d.bar, tickSize)
    && Footprint.SameVolumes(d.levels, GridLevels(d.record.levels, tickSize))
    && Footprint.FlaggedBy(d.levels, d.ratio)
  }

  function Input(d: Detected, tickSize: real): ZoneTheorems.BarInput
    requires tickSize > 0.0
  {
    ZoneTheorems.BarInput(d.levels, GridBar(d.record, tickSize), d.ratio, d.min)
  }

  function Inputs(ds: seq<Detected>, tickSize: real): (inputs: seq<ZoneTheorems.BarInput>)
    requires tickSize > 0.0
    ensures |inputs| == |ds|
    ensures forall i | 0 <= i < |ds| :: inputs[i] == Input(ds[i], tickSize)
  {
    seq(|ds|, i requires 0 <= i < |ds| => Input(ds[i], tickSize))
  }

  lemma DetectedWellFormed(d: Detected, tickSize: real)
    requires tickSize > 0.0 && WellDetected(d, tickSize)
    ensures var b := Input(d, tickSize);
            ZoneTheorems.WellFlagged(b) && ZoneTheorems.NearBar(b.levels, b.bar)
    ensures OnGridTicks(d.bar.ticks, tickSize) ==>
              ZoneTheorems.WithinBar(d.levels, GridBar(d.record, tickSize))
    ensures forall i | 0 <= i < |d.levels| ::
              InTicks(d.record.low, tickSize) <= d.levels[i].price <= InTicks(d.record.high, tickSize)
  {
    hide Round, ClosedMeans;
    BarWellFormed(d.record, d.bar, tickSize);
    var g := GridLevels(d.record.levels, tickSize);
    assert forall i | 0 <= i < |g| :: d.levels[i].price == g[i].price;
    if OnGridTicks(d.bar.ticks, tickSize) {
      BarOnGrid(d.record, d.bar, tickSize);
    }
  }

  /** From the ticks to the zones: over any bars that a series ends, no zone is ever active
      after `detect_all` exactly when no bar shows a stack that the bar's extreme lies
      half a tick beyond. */
  lemma SurvivorsOfBars(ds: seq<Detected>, tickSize: real)
    requires tickSize > 0.0
    requires forall d | d in ds :: WellDetected(d, tickSize)
    ensures ZoneTheorems.NeverActive(Inputs(ds, tickSize)) <==>
            forall d | d in ds :: ZoneTheorems.AllResolved(Input(d, tickSize))
  {
    hide ZoneTheorems.NeverActive, ZoneTheorems.AllResolved, ZoneTheorems.WellFlagged, ZoneTheorems.NearBar;
    hide WellDetected, Input;
    var inputs := Inputs(ds, tickSize);
    forall b | b in inputs ensures ZoneTheorems.WellFlagged(b) && ZoneTheorems.NearBar(b.levels, b.bar) {
      var i :| 0 <= i < |inputs| && inputs[i] == b;
      assert ds[i] in ds;
      DetectedWellFormed(ds[i], tickSize);
    }
    ZoneTheorems.SurvivorsExact(inputs);
    forall d | d in ds ensures Input(d, tickSize) in inputs {
      var i :| 0 <= i < |ds| && ds[i] == d;
      assert inputs[i] == Input(d, tickSize);
    }
    forall b | b in inputs ensures exists d :: d in ds && Input(d, tickSize) == b {
      var i :| 0 <= i < |inputs| && inputs[i] == b;
      assert ds[i] in ds;
    }
  }

  /** When every price is a multiple of the tick size, no zone is ever active after
      `detect_all`. */
  lemma NoZoneOnGrid(ds: seq<Detected>, tickSize: real)
    requires tickSize > 0.0
    requires forall d | d in ds :: WellDetected(d, tickSize) && OnGridTicks(d.bar.ticks, tickSize)
    ensures ZoneTheorems.NeverActive(Inputs(ds, tickSize))
  {
    SurvivorsOfBars(ds, tickSize);
    forall d | d in ds ensures ZoneTheorems.AllResolved(Input(d, tickSize)) {
      DetectedWellFormed(d, tickSize);
      ZoneTheorems.FlagsHaveNeighbours(d.levels, d.ratio);
      forall s | s in Zones.Stacks(d.levels, d.min)
        ensures !ZoneTheorems.HalfBeyond(GridBar(d.record, tickSize), s.direction, s.low, s.high)
      {
        ZoneTheorems.OwnBarTradesThrough(d.levels, d.min, GridBar(d.record, tickSize), s);
      }
    }
  }

  lemma RoundHalf(x: real, k: int)
    ensures x == k as real - 0.5 && x >= 0.0 ==> Round(x) == k
    ensures x == k as real + 0.5 && x <= 0.0 ==> Round(x) == k
  {}

  /** Prices half a tick off are rounded away from zero, so a surviving buying zone needs a
      negative low, and a surviving selling zone a positive high. */
  lemma SurvivorSides(d: Detected, tickSize: real, s: Zones.Stack)
    requires tickSize > 0.0 && WellDetected(d, tickSize)
    requires s in Zones.Stacks(d.levels, d.min)
    requires ZoneTheorems.HalfBeyond(GridBar(d.record, tickSize), s.direction, s.low, s.high)
    ensures if s.direction.Long? then d.record.low < 0.0 else d.record.high > 0.0
  {
    hide Round, ClosedMeans;
    DetectedWellFormed(d, tickSize);
    ZoneTheorems.FlagsHaveNeighbours(d.levels, d.ratio);
    var i := ZoneTheorems.StackHasNeighbour(d.levels, d.min, s);
    var low, high := d.record.low, d.record.high;
    SignOfQuotient(low, tickSize);
    SignOfQuotient(high, tickSize);
    RoundHalf(low / tickSize, s.low);
    RoundHalf(high / tickSize, s.high);
  }

  lemma SignOfQuotient(x: real, tickSize: real)
    requires tickSize > 0.0
    ensures x >= 0.0 ==> x / tickSize >= 0.0
    ensures x <= 0.0 ==> x / tickSize <= 0.0
  {}

  // ---------------------------------------------------------------------------
  // One bar on which a zone is created, with a tick size of one

  function ExampleTicks(price: real): seq<Tick> {
    [Tick(0, 10.0, 3, Bid, Trade), Tick(1, price, 1, Ask, Trade)]
  }

  function ExampleBar(price: real): Bar {
    Bar(ExampleTicks(price), false, 2)
  }

  function ExampleRecord(price: real): BarRecord {
    BarRecord(10.0, price, 10.0, price, 4, 0, 2, true, true, 10.0, 3,
              [Level(10.0, 3, 0, 3, -3, true), Level(11.0, 0, 1, 1, 1, false)], 0, 0, 0, 0, 0.0)
  }

  function ExampleFlags(): seq<Footprint.Level> {
    [Footprint.Level(10, 3, 0, false, true), Footprint.Level(11, 0, 1, false, false)]
  }

  function ExampleDetection(price: real): Detected {
    Detected(ExampleBar(price), ExampleRecord(price), ExampleFlags(), 3.0, 1)
  }

  function ExampleEvents(price: real): seq<Event> {
    [TickEvent(ExampleTicks(price)[0]), TickEvent(ExampleTicks(price)[1]), ForceClose(2)]
  }

  /** The series ends this bar. */
  lemma ExampleRun(price: real)
    requires 10.5 <= price < 11.5
    ensures Run(BarSize(VolumeBars, 50), 1.0, ExampleEvents(price)) == Series([ExampleBar(price)], [])
  {
    var size, es := BarSize(VolumeBars, 50), ExampleEvents(price);
    var t, u := ExampleTicks(price)[0], ExampleTicks(price)[1];
    assert es[..3] == es && es[..2][..1] == es[..1] && es[..1][..0] == [];
    assert Run(size, 1.0, es[..1]) == Series([], [t]);
    assert [t][..0] == [];
    assert Total([t], Volume) == 3;
    assert [t] + [u] == ExampleTicks(price);
    assert Run(size, 1.0, es[..2]) == Series([], ExampleTicks(price));
  }

  lemma ExampleRounding(price: real)
    requires 10.5 <= price < 11.5
    ensures Rounded(10.0, 1.0) == 10.0 && Rounded(price, 1.0) == 11.0
  {
    assert 10.0 / 1.0 == 10.0 && price / 1.0 == price;
    assert Round(10.0) == 10 && Round(price) == 11;
    assert Grid.Price(10, 1.0) == 10.0 && Grid.Price(11, 1.0) == 11.0;
  }

  lemma ExampleAtPrice(price: real)
    requires 10.5 <= price < 11.5
    ensures AtPrice(ExampleTicks(price), 10.0, 1.0) == [ExampleTicks(price)[0]]
    ensures AtPrice(ExampleTicks(price), 11.0, 1.0) == [ExampleTicks(price)[1]]
  {
    ExampleRounding(price);
    hide Rounded;
    var ticks := ExampleTicks(price);
    var t, u := ticks[0], ticks[1];
    assert ticks[..1] == [t] && [t][..0] == [];
    assert AtPrice([t], 10.0, 1.0) == [t] && AtPrice([t], 11.0, 1.0) == [];
  }

  lemma ExamplePrices(price: real, p: real)
    requires 10.5 <= price < 11.5
    ensures Traded(ExampleTicks(price), p, 1.0) <==> p == 10.0 || p == 11.0
    ensures HasPrice(ExampleRecord(price).levels, p) <==> p == 10.0 || p == 11.0
  {
    ExampleRounding(price);
    hide Rounded;
    var ticks, levels := ExampleTicks(price), ExampleRecord(price).levels;
    assert Rounded(ticks[0].price, 1.0) == 10.0 && Rounded(ticks[1].price, 1.0) == 11.0;
    assert levels[0].price == 10.0 && levels[1].price == 11.0;
  }

  lemma TotalOfOne(t: Tick, f: Tick -> int)
    ensures Total([t], f) == f(t)
  {
    assert [t][..0] == [];
  }

  lemma ExampleLevels(price: real)
    requires 10.5 <= price < 11.5
    ensures LevelsMean(ExampleRecord(price).levels, ExampleTicks(price), 1.0)
  {
    var ticks, levels := ExampleTicks(price), ExampleRecord(price).levels;
    ExampleAtPrice(price);
    hide AtPrice, Traded, HasPrice;
    var t, u := ticks[0], ticks[1];
    TotalOfOne(t, AskVolume);
    TotalOfOne(t, BidVolume);
    TotalOfOne(u, AskVolume);
    TotalOfOne(u, BidVolume);
    hide Total;
    assert LevelMeans(levels[0], ticks, 1.0) && LevelMeans(levels[1], ticks, 1.0);
    forall p ensures HasPrice(levels, p) <==> Traded(ticks, p, 1.0) {
      ExamplePrices(price, p);
    }
  }

  lemma ExampleClosed(price: real)
    requires 10.5 <= price < 11.5
    ensures ClosedMeans(ExampleRecord(price), ExampleBar(price), 1.0)
  {
    var ticks, r := ExampleTicks(price), ExampleRecord(price);
    ExampleLevels(price);
    hide LevelsMean;
    assert ticks[..1] == [ticks[0]] && ticks[..1][..0] == [];
    assert Total(ticks[..1], Volume) == 3 && Total(ticks, Volume) == 4;
    assert ticks[0] in ticks && ticks[1] in ticks;
    assert PocMarked(r, 0);
  }

  lemma ExampleDetected(price: real)
    requires 10.5 <= price < 11.5
    ensures WellDetected(ExampleDetection(price), 1.0)
  {
    ExampleClosed(price);
    hide ClosedMeans;
    var levels := ExampleFlags();
    assert Round(10.0 / 1.0) == 10 && Round(11.0 / 1.0) == 11;
    assert Footprint.FirstAt(levels, 11, 1) && Footprint.FirstAt(levels, 10, 0);
    assert Footprint.FlaggedBy(levels, 3.0);
  }

  lemma ExampleStacks()
    ensures Zones.Stacks(ExampleFlags(), 1) == [Zones.Stack(Footprint.Short, 10, 10, 1)]
  {
    var levels := ExampleFlags();
    var buys, sells := Footprint.Flags(levels, Footprint.Long), Footprint.Flags(levels, Footprint.Short);
    assert buys == [false, false] && sells == [true, false];
    assert Runs.Scan(buys, 1, 1) == [] && Runs.Scan(buys, 1, 2) == [] && Runs.Scan(buys, 1, 3) == [];
    assert Runs.Streak(sells, 1) == 1 && Runs.Streak(sells, 2) == 0;
    assert Runs.Scan(sells, 1, 1) == [] && Runs.Scan(sells, 1, 2) == [Runs.Run(0, 1)];
    assert Runs.Scan(sells, 1, 3) == [Runs.Run(0, 1)];
    assert Zones.StacksIn(levels, 1, Footprint.Long) == [];
    assert Zones.StacksIn(levels, 1, Footprint.Short) == [Zones.Stack(Footprint.Short, 10, 10, 1)];
  }

  lemma ExampleDetectBars(price: real)
    ensures ZoneTheorems.DetectBars(Inputs([ExampleDetection(price)], 1.0)) ==
            ZoneTheorems.DetectAll([], ExampleFlags(), 1, Zones.Bar(10.0, price, 2))
  {
    ExampleInput(price);
    hide ExampleFlags, ExampleRecord, ExampleBar, GridBar, ZoneTheorems.DetectAll;
    var d := ExampleDetection(price);
    var inputs := Inputs([d], 1.0);
    assert inputs == [Input(d, 1.0)] && inputs[..0] == [];
  }

  /** The bar creates a selling zone at ten. With its second trade at eleven, on the grid,
      or anywhere above ten and a half, the zone is resolved by the same call; with the
      trade at exactly ten and a half it stays active. */
  lemma ExampleZone(price: real)
    requires 10.5 <= price < 11.5
    ensures WellDetected(ExampleDetection(price), 1.0)
    ensures var zones := ZoneTheorems.DetectBars(Inputs([ExampleDetection(price)], 1.0));
            && |zones| == 1
            && zones[0].direction.Short? && zones[0].low == zones[0].high == 10 && zones[0].count == 1
            && (zones[0].active <==> price == 10.5)
  {
    ExampleDetected(price);
    ExampleDetectBars(price);
    ExampleCall(price);
    hide WellDetected, Inputs, ZoneTheorems.DetectBars, ZoneTheorems.DetectAll, ExampleDetection;
  }

  lemma ExampleInput(price: real)
    ensures GridBar(ExampleRecord(price), 1.0) == Zones.Bar(10.0, price, 2)
  {}

  lemma ExampleCall(price: real)
    ensures var zone := Zones.NewZone(Zones.Stack(Footprint.Short, 10, 10, 1), 2);
            ZoneTheorems.DetectAll([], ExampleFlags(), 1, Zones.Bar(10.0, price, 2)) ==
            [Zones.Resolve(zone, Zones.Bar(10.0, price, 2))]
  {
    ExampleStacks();
    hide ExampleFlags, Zones.Stacks;
    var stack := Zones.Stack(Footprint.Short, 10, 10, 1);
    assert [stack][..0] == [];
    assert Zones.ApplyAll([], [stack], 2).0 == [Zones.NewZone(stack, 2)];
  }
}
