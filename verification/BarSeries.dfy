/** A bar series as an object: its records describe the bars that its ticks are cut into. */
module BarSeries {
  import opened BarLevels
  import opened BarProtocol
  import opened BarTypes
  import opened Ticks
  import opened Wrappers
  import Grid

  /** A record whose figures are those of a list of ticks. */
  ghost predicate BarMeans(r: BarRecord, ticks: seq<Tick>, tickSize: real)
    requires tickSize > 0.0
  {
    && ticks != []
    && r.open == ticks[0].price && r.openTs == ticks[0].ts
    && r.close == ticks[|ticks| - 1].price
    && r.totalVolume == Total(ticks, Volume)
    && IsHigh(r.high, ticks) && IsLow(r.low, ticks)
    && LevelsMean(r.levels, ticks, tickSize)
  }

  ghost predicate NoneMarked(levels: seq<Level>) {
    forall i | 0 <= i < |levels| :: !levels[i].isPoc
  }

  /** The record of the open bar. */
  ghost predicate OpenMeans(r: BarRecord, ticks: seq<Tick>, tickSize: real)
    requires tickSize > 0.0
  {
    BarMeans(r, ticks, tickSize) && NoneMarked(r.levels) && !r.isComplete
  }

  /** Level `p` has the largest volume, and no lower level has as much. */
  ghost predicate IsPoc(levels: seq<Level>, p: nat) {
    && p < |levels|
    && (forall i | 0 <= i < |levels| :: levels[i].totalVol <= levels[p].totalVol)
    && (forall i | 0 <= i < p :: levels[i].totalVol < levels[p].totalVol)
  }

  ghost predicate PocMarked(r: BarRecord, p: nat) {
    && IsPoc(r.levels, p)
    && (forall i | 0 <= i < |r.levels| :: r.levels[i].isPoc <==> i == p)
    && r.pocPrice == r.levels[p].price && r.pocVolume == r.levels[p].totalVol
  }

  /** The record of a bar that has ended. */
  ghost predicate ClosedMeans(r: BarRecord, b: Bar, tickSize: real)
    requires tickSize > 0.0
  {
    && BarMeans(r, b.ticks, tickSize)
    && Ascending(r.levels)
    && (exists p: nat :: PocMarked(r, p))
    && (r.isBullish <==> r.close > r.open)
    && r.isComplete && r.closeTs == b.closeTs
  }

  /** The record of a bar that opens, before its first tick is accumulated. */
  function NewBar(ts: int, price: real): BarRecord {
    BarRecord(price, price, price, price, 0, ts, 0, false, false, 0.0, 0, [], 0, 0, 0, 0, 0.0)
  }

  /** The record of a bar that has taken `ticks` and is about to take `t`. */
  ghost predicate ReadyFor(r: BarRecord, ticks: seq<Tick>, t: Tick, tickSize: real)
    requires tickSize > 0.0
  {
    if ticks == [] then r == NewBar(t.ts, t.price) else OpenMeans(r, ticks, tickSize)
  }

  class BarSeries {
    const barSize: BarSize
    const tickSize: real
    var currentBar: Option<BarRecord>
    var lastBar: Option<BarRecord>
    ghost var series: Series

    ghost predicate Valid()
      reads this
    {
      && IsValidSize(barSize) && tickSize > 0.0
      && (currentBar.Some? <==> series.open != [])
      && (currentBar.Some? ==> OpenMeans(currentBar.value, series.open, tickSize))
      && (lastBar.Some? ==>
            && series.closed != []
            && ClosedMeans(lastBar.value, series.closed[|series.closed| - 1], tickSize))
    }

    constructor (size: BarSize, tick: real)
      requires IsValidSize(size) && tick > 0.0
      ensures Valid() && barSize == size && tickSize == tick && series == Series([], [])
    {
      barSize, tickSize := size, tick;
      currentBar, lastBar := None, None;
      series := Series([], []);
    }

    /** An invalid size, or a tick size that is not positive, gives no series. */
    static method Create(size: BarSize, tick: real) returns (r: Option<BarSeries>)
      ensures r.Some? <==> IsValidSize(size) && tick > 0.0
      ensures size.kind.TimeBars? ==> (r.Some? <==> 5 <= size.size <= 2_678_400 && tick > 0.0)
      ensures size.kind.RangeBars? ==> (r.Some? <==> 1 <= size.size <= 500 && tick > 0.0)
      ensures size.kind.VolumeBars? ==> (r.Some? <==> 50 <= size.size <= 1_000_000 && tick > 0.0)
      ensures r.Some? ==> fresh(r.value) && r.value.Valid() && r.value.series == Series([], [])
      ensures r.Some? ==> r.value.barSize == size && r.value.tickSize == tick
    {
      if !IsValidSize(size) || tick <= 0.0 {
        return None;
      }
      var s := new BarSeries(size, tick);
      r := Some(s);
    }

    /** A tick that counts is tested, then accumulated, and then ends the bar if it met
        the test. The record of a bar that ends is passed on. */
    method OnTick(t: Tick) returns (closed: Option<BarRecord>)
      requires Valid()
      modifies this
      ensures Valid() && series == TickStep(barSize, tickSize, old(series), t)
      ensures closed.Some? <==> |series.closed| > |old(series.closed)|
      ensures closed.Some? ==> lastBar == closed && currentBar.None?
      ensures closed.None? ==> lastBar == old(lastBar)
      ensures !t.kind.Trade? || t.side.Unknown? ==> closed.None? && series == old(series) && currentBar == old(currentBar)
    {
      if !IsAccumulatable(t) {
        return None;
      }
      var bar := if currentBar.None? then NewBar(t.ts, t.price) else currentBar.value;
      FirstTick(bar, series.open, t, tickSize);
      var closeBar := ShouldClose(barSize, tickSize, bar.openTs, bar.open, bar.totalVolume, t);
      var accumulated := Accumulate(bar, t, tickSize, series.open);
      currentBar := Some(accumulated);
      series := series.(open := series.open + [t]);
      closed := None;
      if closeBar {
        closed := CloseCurrentBar(t.ts, true);
      }
    }

    method ForceCloseBar(ts: int) returns (closed: Option<BarRecord>)
      requires Valid()
      modifies this
      ensures Valid() && series == Step(barSize, tickSize, old(series), ForceClose(ts))
      ensures closed.Some? <==> old(currentBar).Some?
      ensures lastBar == if closed.Some? then closed else old(lastBar)
    {
      closed := None;
      if currentBar.Some? {
        closed := CloseCurrentBar(ts, false);
      }
    }

    /** Ends the open bar and forgets the last one. */
    method OnSessionOpen(ts: int) returns (closed: Option<BarRecord>)
      requires Valid()
      modifies this
      ensures Valid() && series == Step(barSize, tickSize, old(series), SessionOpen(ts))
      ensures closed.Some? <==> old(currentBar).Some?
      ensures closed.Some? ==> ClosedMeans(closed.value, series.closed[|series.closed| - 1], tickSize)
      ensures lastBar.None?
    {
      closed := None;
      if currentBar.Some? {
        closed := CloseCurrentBar(ts, false);
      }
      lastBar := None;
    }

    /** Sorts the levels, marks the point of control and turns the open bar into the last one. */
    method CloseCurrentBar(ts: int, ghost triggered: bool) returns (closed: Option<BarRecord>)
      requires Valid() && currentBar.Some?
      modifies this
      ensures Valid() && series == EndBar(old(series), triggered, ts)
      ensures currentBar.None? && closed.Some? && lastBar == closed
    {
      var bar := currentBar.value;
      var levels := SortByPrice(bar.levels);
      var finished := bar.(closeTs := ts, isComplete := true, isBullish := bar.close > bar.open, levels := levels);
      SortMeans(bar.levels, series.open, tickSize);
      SortUnmarked(bar.levels);
      if levels != [] {
        var poc := MaxElement(levels);
        finished := finished.(pocPrice := levels[poc].price, pocVolume := levels[poc].totalVol,
                              levels := levels[poc := levels[poc].(isPoc := true)]);
        MarkMeans(levels, poc, series.open, tickSize);
        assert PocMarked(finished, poc);
      } else {
        SomeLevel(levels, series.open, tickSize);
      }
      series := EndBar(series, triggered, ts);
      closed := Some(finished);
      lastBar := closed;
      currentBar := None;
    }
  }

  /** The first of the levels with the largest volume. */
  method MaxElement(levels: seq<Level>) returns (p: nat)
    requires levels != []
    ensures IsPoc(levels, p)
  {
    p := 0;
    for i := 1 to |levels|
      invariant p < |levels|
      invariant forall j | 0 <= j < i :: levels[j].totalVol <= levels[p].totalVol
      invariant forall j | 0 <= j < p :: levels[j].totalVol < levels[p].totalVol
    {
      if levels[p].totalVol < levels[i].totalVol {
        p := i;
      }
    }
  }

  /** The tick joins its level and the figures of its bar. */
  method Accumulate(bar: BarRecord, t: Tick, tickSize: real, ghost ticks: seq<Tick>) returns (r: BarRecord)
    requires tickSize > 0.0 && IsAccumulatable(t) && ReadyFor(bar, ticks, t, tickSize)
    ensures OpenMeans(r, ticks + [t], tickSize)
  {
    hide Total, LevelsMean, Rounded;
    LevelsReady(bar, ticks, t, tickSize);
    var levels, at := GetOrCreateLevel(bar.levels, t.price, tickSize, ticks);
    var level := levels[at];
    if t.side.Ask? {
      level := level.(askVol := level.askVol + t.volume);
    } else {
      level := level.(bidVol := level.bidVol + t.volume);
    }
    level := level.(totalVol := level.askVol + level.bidVol, delta := level.askVol - level.bidVol);
    assert level == Count(levels[at], t);
    LevelsSnoc(bar.levels, ticks, t, tickSize, levels, at);
    r := bar.(levels := levels[at := level], totalVolume := bar.totalVolume + t.volume);
    TotalSnoc(ticks, t, Volume);
    HighSnoc(bar.high, ticks, t);
    LowSnoc(bar.low, ticks, t);
    if t.price > bar.high {
      r := r.(high := t.price);
    }
    if t.price < bar.low {
      r := r.(low := t.price);
    }
    r := r.(close := t.price);
  }

  /** The bar that a tick is tested against. */
  lemma FirstTick(bar: BarRecord, ticks: seq<Tick>, t: Tick, tickSize: real)
    requires tickSize > 0.0 && ReadyFor(bar, ticks, t, tickSize)
    ensures var first := if ticks == [] then t else ticks[0];
            bar.openTs == first.ts && bar.open == first.price && bar.totalVolume == Total(ticks, Volume)
  {}

  lemma LevelsReady(bar: BarRecord, ticks: seq<Tick>, t: Tick, tickSize: real)
    requires tickSize > 0.0 && ReadyFor(bar, ticks, t, tickSize)
    ensures LevelsMean(bar.levels, ticks, tickSize) && NoneMarked(bar.levels) && !bar.isComplete
    ensures bar.totalVolume == Total(ticks, Volume)
  {}

  lemma HighSnoc(high: real, ticks: seq<Tick>, t: Tick)
    requires if ticks == [] then high == t.price else IsHigh(high, ticks)
    ensures IsHigh(if t.price > high then t.price else high, ticks + [t])
  {
    assert t in ticks + [t];
    if ticks != [] {
      var u :| u in ticks && u.price == high;
      assert u in ticks + [t];
    }
  }

  lemma LowSnoc(low: real, ticks: seq<Tick>, t: Tick)
    requires if ticks == [] then low == t.price else IsLow(low, ticks)
    ensures IsLow(if t.price < low then t.price else low, ticks + [t])
  {
    assert t in ticks + [t];
    if ticks != [] {
      var u :| u in ticks && u.price == low;
      assert u in ticks + [t];
    }
  }

  lemma SortUnmarked(levels: seq<Level>)
    requires NoneMarked(levels)
    ensures NoneMarked(SortByPrice(levels))
  {
    var sorted := SortByPrice(levels);
    forall i | 0 <= i < |sorted| ensures !sorted[i].isPoc {
      SameMembers(sorted, levels, sorted[i]);
    }
  }

  lemma SomeLevel(levels: seq<Level>, ticks: seq<Tick>, tickSize: real)
    requires tickSize > 0.0 && LevelsMean(levels, ticks, tickSize) && ticks != []
    ensures levels != []
  {
    assert Traded(ticks, Rounded(ticks[0].price, tickSize), tickSize);
  }

  /** Marking a level keeps what the levels mean. */
  lemma MarkMeans(levels: seq<Level>, p: nat, ticks: seq<Tick>, tickSize: real)
    requires tickSize > 0.0 && p < |levels| && LevelsMean(levels, ticks, tickSize) && Ascending(levels)
    ensures var marked := levels[p := levels[p].(isPoc := true)];
            LevelsMean(marked, ticks, tickSize) && Ascending(marked)
  {
    var marked := levels[p := levels[p].(isPoc := true)];
    forall i | 0 <= i < |marked| ensures LevelMeans(marked[i], ticks, tickSize) {
      assert LevelMeans(levels[i], ticks, tickSize);
    }
    forall q ensures HasPrice(marked, q) <==> Traded(ticks, q, tickSize) {
      SamePrices(levels, marked, q);
    }
  }

  /** A bar that has ended: its levels ascend from the rounded low to the rounded high,
      their volumes and deltas sum to those of its ticks, and exactly one of them is
      marked, the lowest one of the largest volume. */
  lemma ClosedBarAddsUp(r: BarRecord, b: Bar, tickSize: real)
    requires tickSize > 0.0 && ClosedMeans(r, b, tickSize)
    ensures r.levels != [] && Ascending(r.levels)
    ensures r.levels[0].price == Rounded(r.low, tickSize)
    ensures r.levels[|r.levels| - 1].price == Rounded(r.high, tickSize)
    ensures Sum(r.levels, TotalVol) == r.totalVolume
    ensures Sum(r.levels, LevelDelta) == Delta(b.ticks)
    ensures forall i | 0 <= i < |r.levels| :: r.levels[i].isPoc <==> IsPoc(r.levels, i)
  {
    LevelsAddUp(r.levels, b.ticks, tickSize);
    ExtremeLevels(r.levels, b.ticks, r.low, r.high, tickSize);
    var p: nat :| PocMarked(r, p);
    forall i: nat | i < |r.levels| ensures IsPoc(r.levels, i) <==> i == p {
      if IsPoc(r.levels, i) && i != p {
        PocUnique(r.levels, i, p);
      }
    }
  }

  lemma PocUnique(levels: seq<Level>, p: nat, q: nat)
    requires IsPoc(levels, p) && IsPoc(levels, q)
    ensures p == q
  {
    PocFirst(levels, p, q);
    PocFirst(levels, q, p);
  }

  lemma PocFirst(levels: seq<Level>, p: nat, q: nat)
    requires IsPoc(levels, p) && q < |levels| && levels[q].totalVol >= levels[p].totalVol
    ensures p <= q
  {}

  /** When every price is a multiple of the tick size, the extreme levels are the low and
      the high of the bar. */
  lemma ExtremesOnGrid(r: BarRecord, b: Bar, tickSize: real)
    requires tickSize > 0.0 && ClosedMeans(r, b, tickSize)
    requires forall t | t in b.ticks :: exists i: int :: t.price == Grid.Price(i, tickSize)
    ensures r.levels != []
    ensures r.levels[0].price == r.low && r.levels[|r.levels| - 1].price == r.high
  {
    ClosedBarAddsUp(r, b, tickSize);
    var t :| t in b.ticks && t.price == r.low;
    var i: int :| t.price == Grid.Price(i, tickSize);
    OnGrid(i, tickSize);
    var u :| u in b.ticks && u.price == r.high;
    var j: int :| u.price == Grid.Price(j, tickSize);
    OnGrid(j, tickSize);
  }
}
