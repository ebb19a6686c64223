/** The bar series of the engine's header library. Unlike the other bar series, its time
    bars end before the tick that ends them, and every tick counts. */
module RootBars {
  import opened Reals

  datatype Tick = Tick(ts: nat, price: real, size: real, bidPrice: real, askPrice: real, bidSize: nat, askSize: nat)

  datatype BarType = Time | Range | Volume

  datatype BarRecord = BarRecord(
    startTs: nat, endTs: nat, open: real, high: real, low: real, close: real, vwap: real, volume: real,
    tradeCount: nat, buyVolume: real, sellVolume: real, delta: real, cvd: real, maxDelta: real, minDelta: real,
    range: real, bodySize: real, upperWick: real, lowerWick: real, pocPrice: real, barIndex: nat)

  const EMPTY := BarRecord(0, 0, 0.0, 0.0, 0.0, 0.0, 0.0, 0.0, 0, 0.0, 0.0, 0.0, 0.0, 0.0, 0.0,
                           0.0, 0.0, 0.0, 0.0, 0.0, 0)

  predicate IsBuy(t: Tick) {
    t.price >= t.askPrice && t.askSize > 0
  }

  predicate IsSell(t: Tick) {
    !IsBuy(t) && t.price <= t.bidPrice && t.bidSize > 0
  }

  function Size(t: Tick): real { t.size }

  function BuySize(t: Tick): real { if IsBuy(t) then t.size else 0.0 }

  function SellSize(t: Tick): real { if IsSell(t) then t.size else 0.0 }

  function Notional(t: Tick): real { t.price * t.size }

  function Total(ticks: seq<Tick>, f: Tick -> real): real {
    if ticks == [] then 0.0 else Total(ticks[..|ticks| - 1], f) + f(ticks[|ticks| - 1])
  }

  function Delta(ticks: seq<Tick>): real {
    Total(ticks, BuySize) - Total(ticks, SellSize)
  }

  /** The sum of the deltas that a bar has had after each of its ticks. */
  function RunningSum(ticks: seq<Tick>): real {
    if ticks == [] then 0.0 else RunningSum(ticks[..|ticks| - 1]) + Delta(ticks)
  }

  /** A bar series: the ticks of the bars that have ended, and those of the open bar. */
  datatype Series = Series(closed: seq<seq<Tick>>, open: seq<Tick>)

  ghost predicate IsHigh(high: real, ticks: seq<Tick>) {
    && (forall t | t in ticks :: t.price <= high)
    && (exists t :: t in ticks && t.price == high)
  }

  ghost predicate IsLow(low: real, ticks: seq<Tick>) {
    && (forall t | t in ticks :: low <= t.price)
    && (exists t :: t in ticks && t.price == low)
  }

  function Prefix(ticks: seq<Tick>, k: nat): seq<Tick>
    requires k <= |ticks|
  {
    ticks[..k]
  }

  /** The largest and the smallest delta that a bar has had after one of its ticks. */
  ghost predicate IsPeak(m: real, ticks: seq<Tick>) {
    && (forall k | 1 <= k <= |ticks| :: Delta(Prefix(ticks, k)) <= m)
    && (exists k :: 1 <= k <= |ticks| && Delta(Prefix(ticks, k)) == m)
  }

  ghost predicate IsTrough(m: real, ticks: seq<Tick>) {
    && (forall k | 1 <= k <= |ticks| :: m <= Delta(Prefix(ticks, k)))
    && (exists k :: 1 <= k <= |ticks| && Delta(Prefix(ticks, k)) == m)
  }

  ghost predicate IsAverage(vwap: real, ticks: seq<Tick>) {
    if Total(ticks, Size) > 0.0 then vwap * Total(ticks, Size) == Total(ticks, Notional)
    else ticks != [] && vwap == ticks[|ticks| - 1].price
  }

  /** The figures of a record are those of a list of ticks. */
  ghost predicate BarMeans(r: BarRecord, ticks: seq<Tick>) {
    && ticks != [] && r.tradeCount == |ticks|
    && r.startTs == ticks[0].ts && r.open == ticks[0].price && r.close == ticks[|ticks| - 1].price
    && IsHigh(r.high, ticks) && IsLow(r.low, ticks)
    && FlowMeans(r, ticks)
    && r.range == r.high - r.low
    && r.bodySize == Abs(r.close - r.open)
    && r.upperWick == r.high - Max(r.open, r.close)
    && r.lowerWick == Min(r.open, r.close) - r.low
  }

  ghost predicate FlowMeans(r: BarRecord, ticks: seq<Tick>) {
    && r.volume == Total(ticks, Size) && IsAverage(r.vwap, ticks)
    && r.buyVolume == Total(ticks, BuySize) && r.sellVolume == Total(ticks, SellSize)
    && r.delta == Delta(ticks) && r.cvd == RunningSum(ticks)
    && (ticks != [] ==> IsPeak(r.maxDelta, ticks) && IsTrough(r.minDelta, ticks))
  }

  /** A bar of this type ends with its last tick. */
  ghost predicate Reached(kind: BarType, threshold: nat, ticks: seq<Tick>) {
    match kind
    case Time => false
    case Range => exists high, low :: IsHigh(high, ticks) && IsLow(low, ticks) && high - low >= threshold as real
    case Volume => Total(ticks, Size) >= threshold as real
  }

  /** A tick comes after the time of the open bar. */
  predicate Elapsed(kind: BarType, threshold: nat, open: seq<Tick>, t: Tick) {
    kind.Time? && open != [] && t.ts >= open[0].ts + threshold
  }

  ghost function Step(kind: BarType, threshold: nat, s: Series, t: Tick): Series {
    if Elapsed(kind, threshold, s.open, t) then Series(s.closed + [s.open], [t])
    else
      var all := s.open + [t];
      if Reached(kind, threshold, all) then Series(s.closed + [all], []) else s.(open := all)
  }

  ghost function Run(kind: BarType, threshold: nat, ticks: seq<Tick>): Series {
    if ticks == [] then Series([], [])
    else Step(kind, threshold, Run(kind, threshold, ticks[..|ticks| - 1]), ticks[|ticks| - 1])
  }

  class BarSeries {
    const kind: BarType
    const threshold: nat
    var current: BarRecord
    var notional: real
    var sessionCvd: real
    var active: bool
    var completed: seq<BarRecord>
    ghost var series: Series

    ghost predicate Valid()
      reads this
    {
      && (active <==> series.open != [])
      && (active ==> BarMeans(current, series.open) && notional == Total(series.open, Notional)
                     && sessionCvd == RunningSum(series.open))
      && RecordsMean(completed, series.closed)
    }

    constructor (kind: BarType, threshold: nat)
      ensures Valid() && this.kind == kind && this.threshold == threshold
      ensures series == Series([], []) && completed == []
    {
      this.kind, this.threshold := kind, threshold;
      current, notional, sessionCvd, active, completed := EMPTY, 0.0, 0.0, false, [];
      series := Series([], []);
    }

    /** The record of the bar that the last tick has joined, as long as it is kept. */
    ghost function LastRecord(): BarRecord
      reads this
      requires active || completed != []
    {
      if active then current else completed[|completed| - 1]
    }

    /** For the object: when it has taken `ticks` and then `t`, the cumulative figure that it
        reports for the bar of `t` is the running total of all ticks exactly when, before
        `t`, the figure of the bar that `t` joined was the delta of all earlier bars. */
    lemma ReportedCvd(ticks: seq<Tick>, t: Tick)
      requires Valid() && series == Run(kind, threshold, ticks + [t]) && (active || completed != [])
      ensures BarMeans(LastRecord(), LastBar(series))
      ensures var s := Run(kind, threshold, ticks);
              LastRecord().cvd == Delta(ticks + [t]) <==>
              RunningSum(Joined(kind, threshold, s, t)) == Delta(Flatten(Earlier(kind, threshold, s, t)))
    {
      hide Run, BarMeans, Joined, Earlier;
      assert BarMeans(LastRecord(), LastBar(series));
      CvdExact(kind, threshold, ticks, t, LastRecord());
    }

    method ClearCompleted()
      requires Valid()
      modifies this
      ensures Valid() && completed == [] && series == old(series)
    {
      completed := [];
    }

    method StartBar(t: Tick)
      modifies this`current, this`notional, this`sessionCvd, this`active
      ensures current == Started(t, |completed|) && notional == 0.0 && sessionCvd == 0.0 && active
      ensures current.barIndex == |completed| && current.startTs == t.ts && current.tradeCount == 0
    {
      current := Started(t, |completed|);
      notional, sessionCvd, active := 0.0, current.cvd, true;
    }

    method FinalizeBar(ts: nat)
      modifies this`current, this`notional, this`completed
      ensures completed == old(completed) + [Ended(old(current), ts)]
      ensures notional == 0.0
    {
      current := Ended(current, ts);
      completed := completed + [current];
      current, notional := EMPTY, 0.0;
    }

    /** The open bar is about to take `t`, whose time has not elapsed. */
    ghost predicate ReadyToTake(t: Tick)
      reads this
    {
      && active && Ready(current, notional, sessionCvd, series.open, t)
      && !Elapsed(kind, threshold, series.open, t)
      && RecordsMean(completed, series.closed)
    }

    /** A tick after the time of the open bar ends that bar and opens the next one. Any
        other tick joins the open bar, and ends it when the bar has reached its size. */
    method Ingest(t: Tick) returns (taken: bool)
      requires Valid()
      modifies this
      ensures Valid() && series == Step(kind, threshold, old(series), t) && taken
      ensures old(completed) <= completed
      ensures |completed| - |old(completed)| == |series.closed| - |old(series.closed)|
      ensures forall i | |old(completed)| <= i < |completed| :: completed[i].endTs == t.ts
    {
      hide Ready, RecordsMean, Reached, BarMeans, Ended;
      BarFor(t);
      Take(t);
      taken := true;
    }

    /** Opens a bar when there is none, or when the time of the open one has elapsed. */
    method BarFor(t: Tick)
      requires Valid()
      modifies this
      ensures ReadyToTake(t)
      ensures series == if Elapsed(kind, threshold, old(series.open), t)
                        then Series(old(series.closed) + [old(series.open)], []) else old(series)
      ensures completed == if Elapsed(kind, threshold, old(series.open), t)
                           then old(completed) + [Ended(old(current), t.ts)] else old(completed)
    {
      hide FlowMeans, RecordsMean, IsHigh, IsLow, Total, RunningSum, Started, BarMeans, Ended;
      NothingYet();
      StartOf(current, series.open);
      if !active {
        StartBar(t);
      }
      if kind.Time? && t.ts >= current.startTs + threshold && current.tradeCount > 0 {
        RecordsSnoc(completed, series.closed, current, t.ts, series.open);
        FinalizeBar(t.ts);
        StartBar(t);
        series := Series(series.closed + [series.open], []);
      }
    }

    /** The tick joins the open bar, which ends when it has reached its size. */
    method Take(t: Tick)
      requires ReadyToTake(t)
      modifies this
      ensures Valid()
      ensures var all := old(series.open) + [t];
              if Reached(kind, threshold, all)
              then series == Series(old(series.closed) + [all], []) && |completed| == |old(completed)| + 1
              else series == Series(old(series.closed), all) && completed == old(completed)
      ensures kind.Time? ==> completed == old(completed)
      ensures old(completed) <= completed
      ensures forall i | |old(completed)| <= i < |completed| :: completed[i].endTs == t.ts
    {
      hide Ready, RecordsMean, Reached, BarMeans, Total, RunningSum, Ended;
      ghost var all := series.open + [t];
      var bar, n, cvd := UpdateBar(current, t, notional, sessionCvd, series.open);
      current, notional, sessionCvd := bar, n, cvd;
      series := series.(open := all);
      var ends := ShouldFinalize(kind, threshold, current, all);
      if ends {
        RecordsSnoc(completed, series.closed, current, t.ts, all);
        FinalizeBar(t.ts);
        active := false;
        series := Series(series.closed + [all], []);
      }
    }
  }

  /** The records kept describe the last bars that have ended. */
  ghost predicate RecordsMean(completed: seq<BarRecord>, closed: seq<seq<Tick>>) {
    && |completed| <= |closed|
    && (forall i | 0 <= i < |completed| :: BarMeans(completed[i], closed[|closed| - |completed| + i]))
  }

  lemma RecordsSnoc(completed: seq<BarRecord>, closed: seq<seq<Tick>>, r: BarRecord, ts: nat, ticks: seq<Tick>)
    requires RecordsMean(completed, closed) && BarMeans(r, ticks)
    ensures RecordsMean(completed + [Ended(r, ts)], closed + [ticks])
  {}

  /** A record with the stamp of its end. */
  function Ended(r: BarRecord, ts: nat): (e: BarRecord)
    ensures e.endTs == ts
  {
    r.(endTs := ts)
  }

  /** The record of a bar that opens with a tick, before the tick joins it. */
  function Started(t: Tick, index: nat): BarRecord {
    EMPTY.(startTs := t.ts, endTs := t.ts, open := t.price, high := t.price, low := t.price,
           close := t.price, pocPrice := t.price, barIndex := index)
  }

  /** A record, a notional and a running sum that are about to take a tick. */
  ghost predicate Ready(r: BarRecord, notional: real, cvd: real, ticks: seq<Tick>, t: Tick) {
    && notional == Total(ticks, Notional) && cvd == RunningSum(ticks)
    && if ticks == [] then r == Started(t, r.barIndex) else BarMeans(r, ticks)
  }

  method UpdateBar(r: BarRecord, t: Tick, notional: real, sessionCvd: real, ghost ticks: seq<Tick>)
    returns (bar: BarRecord, n: real, cvd: real)
    requires Ready(r, notional, sessionCvd, ticks, t)
    ensures BarMeans(bar, ticks + [t]) && bar.endTs == t.ts
    ensures n == Total(ticks + [t], Notional) && cvd == RunningSum(ticks + [t])
    ensures bar.buyVolume == r.buyVolume + if t.price >= t.askPrice && t.askSize > 0 then t.size else 0.0
    ensures bar.sellVolume == r.sellVolume +
              if !(t.price >= t.askPrice && t.askSize > 0) && t.price <= t.bidPrice && t.bidSize > 0 then t.size else 0.0
  {
    HighLowSnoc(r, notional, sessionCvd, ticks, t);
    bar := r.(endTs := t.ts, high := Max(r.high, t.price), low := Min(r.low, t.price), close := t.price);
    bar, n, cvd := UpdateFlow(bar, t, notional, sessionCvd, ticks);
    bar := bar.(range := bar.high - bar.low,
                bodySize := Abs(bar.close - bar.open),
                upperWick := bar.high - Max(bar.open, bar.close),
                lowerWick := Min(bar.open, bar.close) - bar.low);
  }

  /** The figures of volume, average price and delta. */
  method UpdateFlow(r: BarRecord, t: Tick, notional: real, sessionCvd: real, ghost ticks: seq<Tick>)
    returns (bar: BarRecord, n: real, cvd: real)
    requires FlowMeans(r, ticks) || (ticks == [] && NoFlow(r))
    requires notional == Total(ticks, Notional) && sessionCvd == RunningSum(ticks) && r.tradeCount == |ticks|
    ensures FlowMeans(bar, ticks + [t])
    ensures n == Total(ticks + [t], Notional) && cvd == RunningSum(ticks + [t])
    ensures bar.tradeCount == |ticks| + 1
    ensures SameShape(bar, r)
    ensures bar.buyVolume == r.buyVolume + if t.price >= t.askPrice && t.askSize > 0 then t.size else 0.0
    ensures bar.sellVolume == r.sellVolume +
              if !(t.price >= t.askPrice && t.askSize > 0) && t.price <= t.bidPrice && t.bidSize > 0 then t.size else 0.0
  {
    hide Total, IsPeak, IsTrough;
    OneMoreTick(ticks, t);
    n := notional + t.price * t.size;
    var volume := r.volume + t.size;
    var vwap := if volume > 0.0 then n / volume else t.price;
    AverageOf(ticks + [t], n, volume, vwap);
    bar := r.(volume := volume, tradeCount := r.tradeCount + 1, vwap := vwap);
    if t.price >= t.askPrice && t.askSize > 0 {
      bar := bar.(buyVolume := bar.buyVolume + t.size);
    } else if t.price <= t.bidPrice && t.bidSize > 0 {
      bar := bar.(sellVolume := bar.sellVolume + t.size);
    }
    bar := bar.(delta := bar.buyVolume - bar.sellVolume);
    cvd := sessionCvd + bar.delta;
    bar := bar.(cvd := cvd);
    ExtremesSnoc(ticks, t, r.maxDelta, r.minDelta);
    if bar.tradeCount == 1 {
      bar := bar.(maxDelta := bar.delta, minDelta := bar.delta);
    } else {
      bar := bar.(maxDelta := Max(bar.maxDelta, bar.delta), minDelta := Min(bar.minDelta, bar.delta));
    }
  }

  ghost predicate NoFlow(r: BarRecord) {
    r.volume == r.buyVolume == r.sellVolume == 0.0
  }

  /** Two records that agree in their stamps and prices. */
  ghost predicate SameShape(a: BarRecord, b: BarRecord) {
    && a.startTs == b.startTs && a.endTs == b.endTs && a.open == b.open && a.close == b.close
    && a.high == b.high && a.low == b.low && a.barIndex == b.barIndex
  }

  /** Whether the bar has reached its size. */
  method ShouldFinalize(kind: BarType, threshold: nat, r: BarRecord, ghost ticks: seq<Tick>) returns (ends: bool)
    requires BarMeans(r, ticks)
    ensures ends <==> Reached(kind, threshold, ticks)
    ensures kind.Time? ==> !ends
  {
    match kind
    case Time => ends := false;
    case Range =>
      ends := r.range >= threshold as real;
      ExtremesUnique(ticks, r.high, r.low);
    case Volume => ends := r.volume >= threshold as real;
  }

  lemma StartOf(r: BarRecord, ticks: seq<Tick>)
    ensures BarMeans(r, ticks) ==> ticks != [] && r.startTs == ticks[0].ts && r.tradeCount > 0
  {}

  lemma NothingYet()
    ensures Total([], Notional) == 0.0 && RunningSum([]) == 0.0
  {}

  lemma ExtremesUnique(ticks: seq<Tick>, high: real, low: real)
    requires IsHigh(high, ticks) && IsLow(low, ticks)
    ensures forall x | IsHigh(x, ticks) :: x == high
    ensures forall x | IsLow(x, ticks) :: x == low
  {}

  lemma TotalSnoc(ticks: seq<Tick>, t: Tick, f: Tick -> real)
    ensures Total(ticks + [t], f) == Total(ticks, f) + f(t)
  {
    assert (ticks + [t])[..|ticks|] == ticks;
  }

  lemma OneMoreTick(ticks: seq<Tick>, t: Tick)
    ensures Total(ticks + [t], Size) == Total(ticks, Size) + Size(t)
    ensures Total(ticks + [t], BuySize) == Total(ticks, BuySize) + BuySize(t)
    ensures Total(ticks + [t], SellSize) == Total(ticks, SellSize) + SellSize(t)
    ensures Total(ticks + [t], Notional) == Total(ticks, Notional) + Notional(t)
    ensures RunningSum(ticks + [t]) == RunningSum(ticks) + Delta(ticks + [t])
    ensures ticks == [] ==> Total(ticks, Size) == Total(ticks, BuySize) == Total(ticks, SellSize) == 0.0
  {
    TotalSnoc(ticks, t, Size);
    TotalSnoc(ticks, t, BuySize);
    TotalSnoc(ticks, t, SellSize);
    TotalSnoc(ticks, t, Notional);
    assert (ticks + [t])[..|ticks|] == ticks;
  }

  lemma AverageOf(ticks: seq<Tick>, notional: real, volume: real, vwap: real)
    requires ticks != [] && notional == Total(ticks, Notional) && volume == Total(ticks, Size)
    requires vwap == if volume > 0.0 then notional / volume else ticks[|ticks| - 1].price
    ensures IsAverage(vwap, ticks)
  {
    hide Total;
    if volume > 0.0 {
      QuotientTimes(notional, volume, vwap);
    }
  }

  lemma HighLowSnoc(r: BarRecord, notional: real, cvd: real, ticks: seq<Tick>, t: Tick)
    requires Ready(r, notional, cvd, ticks, t)
    ensures IsHigh(Max(r.high, t.price), ticks + [t]) && IsLow(Min(r.low, t.price), ticks + [t])
  {
    assert t in ticks + [t];
    if ticks != [] {
      ExtremesOneMore(ticks, t, r.high, r.low);
    }
  }

  lemma ExtremesSnoc(ticks: seq<Tick>, t: Tick, high: real, low: real)
    ensures var d, all := Delta(ticks + [t]), ticks + [t];
            && (ticks == [] ==> IsPeak(d, all) && IsTrough(d, all))
            && (ticks != [] && IsPeak(high, ticks) ==> IsPeak(Max(high, d), all))
            && (ticks != [] && IsTrough(low, ticks) ==> IsTrough(Min(low, d), all))
  {
    hide Delta;
    var all := ticks + [t];
    assert Prefix(all, |all|) == all;
    forall k: nat | k <= |ticks| ensures Prefix(all, k) == Prefix(ticks, k) {
      assert all[..k] == ticks[..k];
    }
    if ticks != [] && IsPeak(high, ticks) {
      var k :| 1 <= k <= |ticks| && Delta(Prefix(ticks, k)) == high;
      assert Delta(Prefix(all, k)) == high;
      assert Delta(Prefix(all, |all|)) == Delta(all);
    }
    if ticks != [] && IsTrough(low, ticks) {
      var k :| 1 <= k <= |ticks| && Delta(Prefix(ticks, k)) == low;
      assert Delta(Prefix(all, k)) == low;
      assert Delta(Prefix(all, |all|)) == Delta(all);
    }
    if ticks == [] {
      assert Delta(Prefix(all, 1)) == Delta(all);
    }
  }

  function Flatten(lists: seq<seq<Tick>>): seq<Tick> {
    if lists == [] then [] else Flatten(lists[..|lists| - 1]) + lists[|lists| - 1]
  }

  /** All ticks that a series has taken, bar after bar. */
  function AllTicks(s: Series): seq<Tick> {
    Flatten(s.closed) + s.open
  }

  /** The bars that have ended and the open one partition all ticks, in order. */
  lemma {:induction false} BarsPartition(kind: BarType, threshold: nat, ticks: seq<Tick>)
    ensures AllTicks(Run(kind, threshold, ticks)) == ticks
  {
    if ticks == [] {
    } else {
      var n := |ticks| - 1;
      assert Run(kind, threshold, ticks) == Step(kind, threshold, Run(kind, threshold, ticks[..n]), ticks[n]);
      hide *;
      BarsPartition(kind, threshold, ticks[..n]);
      StepTakes(kind, threshold, Run(kind, threshold, ticks[..n]), ticks[n]);
      assert ticks == ticks[..n] + [ticks[n]];
    }
  }

  lemma StepTakes(kind: BarType, threshold: nat, s: Series, t: Tick)
    ensures var r := Step(kind, threshold, s, t);
            AllTicks(r) == AllTicks(s) + [t]
  {
    hide Reached, Elapsed;
    FlattenSnoc(s.closed, s.open);
    FlattenSnoc(s.closed, s.open + [t]);
    assert Flatten(s.closed) + (s.open + [t]) == Flatten(s.closed) + s.open + [t];
    assert Flatten(s.closed) + (s.open + [t]) + [] == Flatten(s.closed) + (s.open + [t]);
  }

  lemma FlattenSnoc(lists: seq<seq<Tick>>, last: seq<Tick>)
    ensures Flatten(lists + [last]) == Flatten(lists) + last
  {
    assert (lists + [last])[..|lists|] == lists;
  }

  /** No tick of these found the bar reached or elapsed, except perhaps the last. */
  ghost predicate StillOpen(kind: BarType, threshold: nat, ticks: seq<Tick>, n: nat)
    requires n <= |ticks|
  {
    && (forall k | 1 <= k <= n :: !Reached(kind, threshold, Prefix(ticks, k)))
    && (kind.Time? ==> forall k | 1 <= k < |ticks| :: ticks[k].ts < ticks[0].ts + threshold)
  }

  ghost predicate WellCut(kind: BarType, threshold: nat, bar: seq<Tick>) {
    && bar != []
    && StillOpen(kind, threshold, bar, |bar| - 1)
    && (!kind.Time? ==> Reached(kind, threshold, bar))
  }

  ghost predicate Inv(kind: BarType, threshold: nat, s: Series) {
    && (forall b | b in s.closed :: WellCut(kind, threshold, b))
    && StillOpen(kind, threshold, s.open, |s.open|)
    && (kind.Time? ==> s.closed == [] || s.open != [])
    && (kind.Time? ==> forall i | 0 < i < |s.closed| && s.closed[i] != [] && s.closed[i - 1] != [] ::
          s.closed[i][0].ts >= s.closed[i - 1][0].ts + threshold)
    && (kind.Time? && s.closed != [] && s.closed[|s.closed| - 1] != [] && s.open != [] ==>
          s.open[0].ts >= s.closed[|s.closed| - 1][0].ts + threshold)
  }

  lemma StillOpenSnoc(kind: BarType, threshold: nat, open: seq<Tick>, t: Tick)
    requires StillOpen(kind, threshold, open, |open|) && !Elapsed(kind, threshold, open, t)
    ensures StillOpen(kind, threshold, open + [t], |open|)
    ensures !Reached(kind, threshold, open + [t]) ==> StillOpen(kind, threshold, open + [t], |open| + 1)
  {
    hide Reached;
    var all := open + [t];
    forall k | 1 <= k <= |open| ensures Prefix(all, k) == Prefix(open, k) {
      assert all[..k] == open[..k];
    }
    assert Prefix(all, |all|) == all;
    assert forall k | 1 <= k < |open| :: all[k] == open[k];
  }

  lemma StepKeepsInv(kind: BarType, threshold: nat, s: Series, t: Tick)
    requires Inv(kind, threshold, s)
    ensures Inv(kind, threshold, Step(kind, threshold, s, t))
  {
    hide Total, IsHigh, IsLow;
    if Elapsed(kind, threshold, s.open, t) {
      assert WellCut(kind, threshold, s.open);
    } else {
      StillOpenSnoc(kind, threshold, s.open, t);
      var all := s.open + [t];
      if Reached(kind, threshold, all) {
        assert WellCut(kind, threshold, all);
      }
    }
  }

  lemma {:induction false} RunInv(kind: BarType, threshold: nat, ticks: seq<Tick>)
    ensures Inv(kind, threshold, Run(kind, threshold, ticks))
  {
    if ticks == [] {
    } else {
      RunInv(kind, threshold, ticks[..|ticks| - 1]);
      StepKeepsInv(kind, threshold, Run(kind, threshold, ticks[..|ticks| - 1]), ticks[|ticks| - 1]);
    }
  }

  /** The bars of a series: those that have ended, and the open one. */
  function Bars(s: Series): seq<seq<Tick>> {
    s.closed + [s.open]
  }

  lemma ReachedExact(kind: BarType, threshold: nat, ticks: seq<Tick>, n: nat, k: nat)
    requires !kind.Time? && n < |Bars(Run(kind, threshold, ticks))|
    requires 1 <= k <= |Bars(Run(kind, threshold, ticks))[n]|
    ensures var s := Run(kind, threshold, ticks);
            Reached(kind, threshold, Prefix(Bars(s)[n], k)) <==> n < |s.closed| && k == |Bars(s)[n]|
  {
    hide Reached, Run;
    RunInv(kind, threshold, ticks);
    var s := Run(kind, threshold, ticks);
    var bar := Bars(s)[n];
    assert Prefix(bar, |bar|) == bar;
    if n < |s.closed| {
      assert s.closed[n] in s.closed;
      assert WellCut(kind, threshold, bar);
    }
  }

  /** A volume bar ends with exactly the tick that brings its volume to the size; no open bar has
      it. */
  lemma VolumeBarEnds(threshold: nat, ticks: seq<Tick>, n: nat, k: nat)
    requires n < |Bars(Run(Volume, threshold, ticks))|
    requires 1 <= k <= |Bars(Run(Volume, threshold, ticks))[n]|
    ensures var s := Run(Volume, threshold, ticks);
            Total(Bars(s)[n][..k], Size) >= threshold as real <==> n < |s.closed| && k == |Bars(s)[n]|
  {
    hide Run, Total;
    ReachedExact(Volume, threshold, ticks, n, k);
  }

  /** A range bar ends with exactly the tick by which two of its prices are the size apart; no
      open bar has two such prices. */
  lemma RangeBarEnds(threshold: nat, ticks: seq<Tick>, n: nat, k: nat)
    requires n < |Bars(Run(Range, threshold, ticks))|
    requires 1 <= k <= |Bars(Run(Range, threshold, ticks))[n]|
    ensures var s := Run(Range, threshold, ticks);
            (exists i, j | 0 <= i < k && 0 <= j < k ::
               Bars(s)[n][i].price - Bars(s)[n][j].price >= threshold as real)
            <==> n < |s.closed| && k == |Bars(s)[n]|
  {
    hide Run, Bars, Reached;
    var bar := Bars(Run(Range, threshold, ticks))[n];
    ReachedExact(Range, threshold, ticks, n, k);
    ReachedRange(threshold, Prefix(bar, k));
    assert forall i | 0 <= i < k :: Prefix(bar, k)[i] == bar[i];
  }

  lemma ReachedRange(threshold: nat, ticks: seq<Tick>)
    requires ticks != []
    ensures Reached(Range, threshold, ticks) <==>
            exists i, j | 0 <= i < |ticks| && 0 <= j < |ticks| :: ticks[i].price - ticks[j].price >= threshold as real
  {
    var high, low := Extremes(ticks);
    ExtremesUnique(ticks, high, low);
    var i :| 0 <= i < |ticks| && ticks[i].price == high;
    var j :| 0 <= j < |ticks| && ticks[j].price == low;
    assert high - low >= threshold as real ==> ticks[i].price - ticks[j].price >= threshold as real;
    forall x, y | 0 <= x < |ticks| && 0 <= y < |ticks| ensures ticks[x].price - ticks[y].price <= high - low {
      assert ticks[x] in ticks && ticks[y] in ticks;
    }
  }

  lemma {:induction false} Extremes(ticks: seq<Tick>) returns (high: real, low: real)
    requires ticks != []
    ensures IsHigh(high, ticks) && IsLow(low, ticks)
  {
    var n := |ticks| - 1;
    if n == 0 {
      high, low := ticks[0].price, ticks[0].price;
      assert ticks[0] in ticks;
    } else {
      high, low := Extremes(ticks[..n]);
      assert ticks == ticks[..n] + [ticks[n]];
      ExtremesOneMore(ticks[..n], ticks[n], high, low);
      high, low := Max(high, ticks[n].price), Min(low, ticks[n].price);
    }
  }

  lemma ExtremesOneMore(ticks: seq<Tick>, t: Tick, high: real, low: real)
    requires IsHigh(high, ticks) && IsLow(low, ticks)
    ensures IsHigh(Max(high, t.price), ticks + [t]) && IsLow(Min(low, t.price), ticks + [t])
  {
    assert t in ticks + [t];
    var u :| u in ticks && u.price == high;
    assert u in ticks + [t];
    var v :| v in ticks && v.price == low;
    assert v in ticks + [t];
  }

  /** All ticks of a time bar, ended or open, lie within its time, and the next bar opens after
      it. */
  lemma TimeBars(threshold: nat, ticks: seq<Tick>, n: nat, k: nat)
    requires n < |Bars(Run(Time, threshold, ticks))|
    requires k < |Bars(Run(Time, threshold, ticks))[n]|
    ensures var s := Run(Time, threshold, ticks);
            var bar := Bars(s)[n];
            && (k > 0 ==> bar[k].ts < bar[0].ts + threshold)
            && (n < |s.closed| ==>
                  var next := Bars(s)[n + 1];
                  next != [] && next[0].ts >= bar[0].ts + threshold)
  {
    hide Run;
    var s := Run(Time, threshold, ticks);
    RunInv(Time, threshold, ticks);
    if n < |s.closed| {
      assert s.closed[n] in s.closed;
      assert WellCut(Time, threshold, s.closed[n]);
      if n + 1 < |s.closed| {
        assert s.closed[n + 1] in s.closed;
        assert WellCut(Time, threshold, s.closed[n + 1]);
      }
    }
  }

  /** The candle: its wicks and its body are not negative and add up to its range. */
  lemma CandleAddsUp(r: BarRecord, ticks: seq<Tick>)
    requires BarMeans(r, ticks)
    ensures r.upperWick >= 0.0 && r.lowerWick >= 0.0 && r.bodySize >= 0.0
    ensures r.upperWick + r.bodySize + r.lowerWick == r.range
  {
    assert ticks[0] in ticks && ticks[|ticks| - 1] in ticks;
  }

  lemma {:induction false} NotionalWithin(ticks: seq<Tick>, low: real, high: real)
    requires forall t | t in ticks :: low <= t.price <= high && t.size >= 0.0
    ensures 0.0 <= Total(ticks, Size)
    ensures low * Total(ticks, Size) <= Total(ticks, Notional) <= high * Total(ticks, Size)
  {
    if ticks == [] {
    } else {
      var t, rest := ticks[|ticks| - 1], ticks[..|ticks| - 1];
      assert t in ticks;
      NotionalWithin(rest, low, high);
      WithinStep(low, high, t.price, t.size, Total(rest, Size), Total(rest, Notional));
    }
  }

  lemma WithinStep(low: real, high: real, p: real, size: real, v: real, n: real)
    requires low <= p <= high && size >= 0.0 && low * v <= n <= high * v
    ensures low * (v + size) <= n + p * size <= high * (v + size)
  {
    assert (p - low) * size >= 0.0 && (high - p) * size >= 0.0;
  }

  /** With sizes that are not negative, the average price lies within the bar. */
  lemma AverageWithinBar(r: BarRecord, ticks: seq<Tick>)
    requires BarMeans(r, ticks) && forall t | t in ticks :: t.size >= 0.0
    ensures r.low <= r.vwap <= r.high
  {
    hide Total, FlowMeans, IsAverage;
    NotionalWithin(ticks, r.low, r.high);
    assert ticks[|ticks| - 1] in ticks;
    AverageIs(r, ticks);
    if Total(ticks, Size) > 0.0 {
      AverageBetween(r.low, r.high, r.vwap, Total(ticks, Size), Total(ticks, Notional));
    }
  }

  lemma AverageIs(r: BarRecord, ticks: seq<Tick>)
    requires BarMeans(r, ticks)
    ensures if Total(ticks, Size) > 0.0 then r.vwap * Total(ticks, Size) == Total(ticks, Notional)
            else r.vwap == r.close
  {
    hide Total;
  }

  lemma AverageBetween(low: real, high: real, average: real, v: real, n: real)
    requires v > 0.0 && average * v == n && low * v <= n <= high * v
    ensures low <= average <= high
  {
    Cancel(low, average, v);
    Cancel(average, high, v);
  }

  lemma {:induction false} TotalAppend(a: seq<Tick>, b: seq<Tick>, f: Tick -> real)
    ensures Total(a + b, f) == Total(a, f) + Total(b, f)
  {
    if b == [] {
      assert a + b == a;
    } else {
      var n := |b| - 1;
      assert (a + b)[..|a + b| - 1] == a + b[..n];
      TotalAppend(a, b[..n], f);
    }
  }

  lemma DeltaAppend(a: seq<Tick>, b: seq<Tick>)
    ensures Delta(a + b) == Delta(a) + Delta(b)
  {
    TotalAppend(a, b, BuySize);
    TotalAppend(a, b, SellSize);
  }

  lemma RunningSnoc(ticks: seq<Tick>, t: Tick)
    ensures RunningSum(ticks + [t]) == RunningSum(ticks) + Delta(ticks + [t])
  {
    OneMoreTick(ticks, t);
  }

  function Times(n: nat, x: real): real {
    n as real * x
  }

  /** The delta so far counts in the running sum once more for every further tick. */
  lemma {:induction false} RunningSumWeights(ticks: seq<Tick>, more: seq<Tick>)
    ensures RunningSum(ticks + more) == RunningSum(ticks) + Times(|more|, Delta(ticks)) + RunningSum(more)
  {
    if more == [] {
      assert ticks + more == ticks;
      NoTime(Delta(ticks));
    } else {
      var rest, t := more[..|more| - 1], more[|more| - 1];
      assert more == rest + [t] && ticks + more == (ticks + rest) + [t];
      hide *;
      RunningSumWeights(ticks, rest);
      RunningSnoc(ticks + rest, t);
      RunningSnoc(rest, t);
      DeltaAppend(ticks, more);
      OneMoreTime(|rest|, Delta(ticks));
    }
  }

  lemma NoTime(x: real)
    ensures Times(0, x) == 0.0
  {}

  lemma OneMoreTime(n: nat, x: real)
    ensures Times(n + 1, x) == Times(n, x) + x
  {}

  // ---------------------------------------------------------------------------
  // The cumulative figure of a bar against the running total of all ticks

  /** The ticks of the bar that `t` joins, and the bars before that one. */
  ghost function Joined(kind: BarType, threshold: nat, s: Series, t: Tick): seq<Tick> {
    if Elapsed(kind, threshold, s.open, t) then [] else s.open
  }

  ghost function Earlier(kind: BarType, threshold: nat, s: Series, t: Tick): seq<seq<Tick>> {
    if Elapsed(kind, threshold, s.open, t) then s.closed + [s.open] else s.closed
  }

  /** The bar that the last tick of a run has joined: the open one, or the last one that
      has ended. */
  ghost function LastBar(s: Series): seq<Tick> {
    if s.open != [] then s.open
    else if s.closed != [] then s.closed[|s.closed| - 1]
    else []
  }

  lemma JoinedBar(kind: BarType, threshold: nat, s: Series, t: Tick)
    ensures LastBar(Step(kind, threshold, s, t)) == Joined(kind, threshold, s, t) + [t]
  {
    hide Reached;
  }

  lemma JoinedTakesAll(kind: BarType, threshold: nat, ticks: seq<Tick>, t: Tick)
    ensures var s := Run(kind, threshold, ticks);
            Flatten(Earlier(kind, threshold, s, t)) + Joined(kind, threshold, s, t) == ticks
  {
    var s := Run(kind, threshold, ticks);
    BarsPartition(kind, threshold, ticks);
    FlattenSnoc(s.closed, s.open);
    assert Flatten(s.closed) + s.open + [] == Flatten(s.closed) + s.open;
  }

  /** After `t`, the cumulative figure of the bar that the series then has is the delta of
      all ticks so far. */
  ghost predicate CvdIsTotal(kind: BarType, threshold: nat, ticks: seq<Tick>, t: Tick) {
    RunningSum(LastBar(Run(kind, threshold, ticks + [t]))) == Delta(ticks + [t])
  }

  /** In every run: after a tick the cumulative figure in the record of its bar is the
      running total of all ticks exactly when, before the tick, the figure of the bar that
      it joins was the delta of all earlier bars. */
  lemma CvdExact(kind: BarType, threshold: nat, ticks: seq<Tick>, t: Tick, r: BarRecord)
    requires BarMeans(r, LastBar(Run(kind, threshold, ticks + [t])))
    ensures r.cvd == Delta(ticks + [t]) <==> CvdIsTotal(kind, threshold, ticks, t)
    ensures var s := Run(kind, threshold, ticks);
            CvdIsTotal(kind, threshold, ticks, t) <==>
            RunningSum(Joined(kind, threshold, s, t)) == Delta(Flatten(Earlier(kind, threshold, s, t)))
  {
    hide Run, Total, IsHigh, IsLow, IsAverage, IsPeak, IsTrough, Joined, Earlier, LastBar;
    CvdStep(kind, threshold, ticks, t);
  }

  lemma RunSnoc(kind: BarType, threshold: nat, ticks: seq<Tick>, t: Tick)
    ensures Run(kind, threshold, ticks + [t]) == Step(kind, threshold, Run(kind, threshold, ticks), t)
  {
    assert (ticks + [t])[..|ticks|] == ticks;
  }

  lemma CvdStep(kind: BarType, threshold: nat, ticks: seq<Tick>, t: Tick)
    ensures var s := Run(kind, threshold, ticks);
            CvdIsTotal(kind, threshold, ticks, t) <==>
            RunningSum(Joined(kind, threshold, s, t)) == Delta(Flatten(Earlier(kind, threshold, s, t)))
  {
    var s := Run(kind, threshold, ticks);
    var bar, before := Joined(kind, threshold, s, t), Flatten(Earlier(kind, threshold, s, t));
    RunSnoc(kind, threshold, ticks, t);
    JoinedBar(kind, threshold, s, t);
    JoinedTakesAll(kind, threshold, ticks, t);
    hide Run, Step, Joined, Earlier, LastBar;
    OneMoreTick(bar, t);
    DeltaAppend(before, bar + [t]);
    assert ticks + [t] == before + (bar + [t]);
  }

  /** A tick without buying or selling volume. */
  predicate IsNeutral(t: Tick) {
    BuySize(t) - SellSize(t) == 0.0
  }

  lemma {:induction false} AllNeutral(ticks: seq<Tick>)
    requires forall t | t in ticks :: IsNeutral(t)
    ensures Delta(ticks) == 0.0 && RunningSum(ticks) == 0.0
  {
    if ticks == [] {
    } else {
      AllNeutral(ticks[..|ticks| - 1]);
      assert ticks[|ticks| - 1] in ticks;
    }
  }

  /** After neutral ticks and one more, the next figure is the total exactly when that one
      was neutral too. */
  lemma CvdAfterNeutral(kind: BarType, threshold: nat, neutral: seq<Tick>, x: Tick, t: Tick)
    requires forall u | u in neutral :: IsNeutral(u)
    ensures CvdIsTotal(kind, threshold, neutral + [x], t) <==> IsNeutral(x)
  {
    var ticks := neutral + [x];
    var s := Run(kind, threshold, ticks);
    var bar, before := Joined(kind, threshold, s, t), Flatten(Earlier(kind, threshold, s, t));
    CvdStep(kind, threshold, ticks, t);
    JoinedTakesAll(kind, threshold, ticks, t);
    hide Run, Joined, Earlier, CvdIsTotal, IsNeutral;
    AllNeutral(neutral);
    DeltaSnoc(neutral, x);
    if bar == [] {
      assert before == ticks;
    } else {
      var rest := bar[..|bar| - 1];
      assert bar[|bar| - 1] == ticks[|ticks| - 1] == x;
      assert bar == rest + [x] && before + rest == neutral;
      assert forall u | u in rest :: u in neutral;
      assert forall u | u in before :: u in neutral;
      AllNeutral(rest);
      AllNeutral(before);
      DeltaSnoc(rest, x);
    }
  }

  lemma DeltaSnoc(ticks: seq<Tick>, x: Tick)
    ensures Delta(ticks + [x]) == Delta(ticks) + (BuySize(x) - SellSize(x))
    ensures RunningSum(ticks + [x]) == RunningSum(ticks) + Delta(ticks + [x])
    ensures IsNeutral(x) <==> BuySize(x) - SellSize(x) == 0.0
  {
    OneMoreTick(ticks, x);
  }

  /** The figure was the running total after each of the first `n` ticks. */
  ghost predicate CvdTotalUpTo(kind: BarType, threshold: nat, ticks: seq<Tick>, n: nat)
    requires n <= |ticks|
  {
    forall k: nat | k < n :: CvdIsTotal(kind, threshold, ticks[..k], ticks[k])
  }

  ghost predicate NeutralUpTo(ticks: seq<Tick>, n: int)
    requires n <= |ticks|
  {
    forall i | 0 <= i < n :: IsNeutral(ticks[i])
  }

  /** Over a whole run the cumulative figure is the running total after every tick exactly
      when every tick but the last has neither buying nor selling volume. */
  lemma {:induction false} CvdAlwaysTotal(kind: BarType, threshold: nat, ticks: seq<Tick>, n: nat)
    requires n <= |ticks|
    ensures CvdTotalUpTo(kind, threshold, ticks, n) <==> NeutralUpTo(ticks, n - 1)
    decreases n
  {
    hide IsNeutral, CvdIsTotal;
    if n == 0 {
    } else {
      CvdAlwaysTotal(kind, threshold, ticks, n - 1);
      if n == 1 {
        FirstCvd(kind, threshold, ticks[0]);
        assert ticks[..0] == [];
      } else if NeutralUpTo(ticks, n - 2) {
        NextCvd(kind, threshold, ticks, n - 1);
      }
    }
  }

  lemma NextCvd(kind: BarType, threshold: nat, ticks: seq<Tick>, k: nat)
    requires 1 <= k < |ticks| && NeutralUpTo(ticks, k - 1)
    ensures CvdIsTotal(kind, threshold, ticks[..k], ticks[k]) <==> IsNeutral(ticks[k - 1])
  {
    hide IsNeutral, CvdIsTotal;
    var neutral := ticks[..k - 1];
    assert ticks[..k] == neutral + [ticks[k - 1]];
    assert forall u | u in neutral :: IsNeutral(u);
    CvdAfterNeutral(kind, threshold, neutral, ticks[k - 1], ticks[k]);
  }

  lemma FirstCvd(kind: BarType, threshold: nat, t: Tick)
    ensures CvdIsTotal(kind, threshold, [], t)
  {
    CvdStep(kind, threshold, [], t);
  }

  /** The delta of a bar never returns to zero and keeps its sign after each tick. */
  ghost predicate KeepsSide(ticks: seq<Tick>, buyers: bool) {
    forall k | 1 <= k <= |ticks| :: if buyers then Delta(Prefix(ticks, k)) > 0.0 else Delta(Prefix(ticks, k)) < 0.0
  }

  lemma {:induction false} KeepsSideSum(ticks: seq<Tick>, buyers: bool)
    requires ticks != [] && KeepsSide(ticks, buyers)
    ensures if buyers then RunningSum(ticks) > 0.0 else RunningSum(ticks) < 0.0
  {
    hide Delta;
    var n := |ticks| - 1;
    assert Prefix(ticks, |ticks|) == ticks;
    if n == 0 {
      assert RunningSum(ticks[..n]) == 0.0;
    } else {
      forall k | 1 <= k <= n ensures Prefix(ticks[..n], k) == Prefix(ticks, k) {
        assert ticks[..n][..k] == ticks[..k];
      }
      KeepsSideSum(ticks[..n], buyers);
    }
  }

  /** While one side leads a bar throughout, its cumulative figure is its delta after its
      first tick and never again. */
  lemma CvdCountsAgain(ticks: seq<Tick>, buyers: bool)
    requires ticks != [] && KeepsSide(ticks, buyers)
    ensures RunningSum(ticks) == Delta(ticks) <==> |ticks| == 1
  {
    hide Delta;
    var n := |ticks| - 1;
    if n == 0 {
      assert RunningSum(ticks[..n]) == 0.0;
    } else {
      forall k | 1 <= k <= n ensures Prefix(ticks[..n], k) == Prefix(ticks, k) {
        assert ticks[..n][..k] == ticks[..k];
      }
      KeepsSideSum(ticks[..n], buyers);
    }
  }
}
