/** How a stream of ticks is cut into bars, over every run of a bar series. */
module BarProtocol {
  import opened BarTypes
  import Bits
  import Reals
  import opened Ticks

  const NANOSECONDS := 1_000_000_000

  /** Integer division that drops the fraction. */
  function TruncatedDiv(x: int, y: int): int
    requires y > 0
  {
    if x >= 0 then x / y else -((-x) / y)
  }

  /** The number of the time window that a stamp lies in. */
  function WindowIndex(size: BarSize, ts: int): int
    requires size.size > 0
  {
    TruncatedDiv(ts, size.size * NANOSECONDS)
  }

  /** The close test of a tick against the open bar, before the tick is accumulated. */
  function ShouldClose(size: BarSize, tickSize: real, openTs: int, openPrice: real, volume: int, t: Tick): bool
    requires IsValidSize(size)
  {
    match size.kind
    case TimeBars =>
      var sizeNs := size.size * NANOSECONDS;
      t.ts >= TruncatedDiv(openTs, sizeNs) * sizeNs + sizeNs
    case RangeBars => Reals.Abs(t.price - openPrice) >= size.size as real * tickSize
    case VolumeBars => volume >= size.size
  }

  /** A bar that has ended: its ticks, and whether its last tick ended it. */
  datatype Bar = Bar(ticks: seq<Tick>, triggered: bool, closeTs: int)

  /** A bar series: the bars that have ended and the ticks of the open bar. */
  datatype Series = Series(closed: seq<Bar>, open: seq<Tick>)

  datatype Event = TickEvent(tick: Tick) | ForceClose(ts: int) | SessionOpen(ts: int)

  function EndBar(s: Series, triggered: bool, ts: int): Series {
    if s.open == [] then s else Series(s.closed + [Bar(s.open, triggered, ts)], [])
  }

  /** A bar opens with the first tick that it takes; the test comes before the tick. */
  function TickStep(size: BarSize, tickSize: real, s: Series, t: Tick): Series
    requires IsValidSize(size)
  {
    var first := if s.open == [] then t else s.open[0];
    var taken := s.(open := s.open + [t]);
    if !IsAccumulatable(t) then s
    else if ShouldClose(size, tickSize, first.ts, first.price, Total(s.open, Volume), t) then EndBar(taken, true, t.ts)
    else taken
  }

  /** After a tick that counts there is no open bar exactly when the tick met the test: a
      bar that ends is not replaced before the next tick. */
  lemma EndsUnreplaced(size: BarSize, tickSize: real, s: Series, t: Tick)
    requires IsValidSize(size) && IsAccumulatable(t)
    ensures var first := if s.open == [] then t else s.open[0];
            TickStep(size, tickSize, s, t).open == [] <==>
            ShouldClose(size, tickSize, first.ts, first.price, Total(s.open, Volume), t)
  {}

  function Step(size: BarSize, tickSize: real, s: Series, e: Event): Series
    requires IsValidSize(size)
  {
    match e
    case TickEvent(t) => TickStep(size, tickSize, s, t)
    case ForceClose(ts) => EndBar(s, false, ts)
    case SessionOpen(ts) => EndBar(s, false, ts)
  }

  function Run(size: BarSize, tickSize: real, events: seq<Event>): Series
    requires IsValidSize(size)
  {
    if events == [] then Series([], [])
    else Step(size, tickSize, Run(size, tickSize, events[..|events| - 1]), events[|events| - 1])
  }

  /** The ticks among the events of a run. */
  function TicksOf(events: seq<Event>): seq<Tick> {
    if events == [] then []
    else
      var rest, e := TicksOf(events[..|events| - 1]), events[|events| - 1];
      if e.TickEvent? then rest + [e.tick] else rest
  }

  function BarTicks(bars: seq<Bar>): (r: seq<seq<Tick>>)
    ensures |r| == |bars|
    ensures forall i | 0 <= i < |r| :: r[i] == bars[i].ticks
  {
    seq(|bars|, i requires 0 <= i < |bars| => bars[i].ticks)
  }

  lemma BarTicksSnoc(bars: seq<Bar>, b: Bar)
    ensures BarTicks(bars + [b]) == BarTicks(bars) + [b.ticks]
  {}

  /** All ticks that a series has taken, bar after bar. */
  function AllTicks(s: Series): seq<Tick> {
    Flatten(BarTicks(s.closed)) + s.open
  }

  lemma EndBarKeepsTicks(s: Series, triggered: bool, ts: int)
    ensures AllTicks(EndBar(s, triggered, ts)) == AllTicks(s)
  {
    if s.open != [] {
      BarTicksSnoc(s.closed, Bar(s.open, triggered, ts));
      FlattenSnoc(BarTicks(s.closed), s.open);
    }
  }

  lemma TickStepTakes(size: BarSize, tickSize: real, s: Series, t: Tick)
    requires IsValidSize(size)
    ensures AllTicks(TickStep(size, tickSize, s, t)) == AllTicks(s) + if IsAccumulatable(t) then [t] else []
    ensures t.side.Unknown? || !t.kind.Trade? ==> TickStep(size, tickSize, s, t) == s
    ensures !t.side.Unknown? && t.kind.Trade? ==> AllTicks(TickStep(size, tickSize, s, t)) == AllTicks(s) + [t]
  {
    if IsAccumulatable(t) {
      var taken := s.(open := s.open + [t]);
      assert AllTicks(taken) == AllTicks(s) + [t];
      EndBarKeepsTicks(taken, true, t.ts);
    } else {
      assert AllTicks(s) + [] == AllTicks(s);
    }
  }

  /** The bars that have ended and the open one partition the ticks that count, in order. */
  lemma {:induction false} BarsPartition(size: BarSize, tickSize: real, events: seq<Event>)
    requires IsValidSize(size)
    ensures AllTicks(Run(size, tickSize, events)) == Accumulatable(TicksOf(events))
  {
    if events == [] {
    } else {
      var n := |events| - 1;
      var s := Run(size, tickSize, events[..n]);
      BarsPartition(size, tickSize, events[..n]);
      match events[n]
      case TickEvent(t) =>
        TickStepTakes(size, tickSize, s, t);
        AccumulatableSnoc(TicksOf(events[..n]), t);
      case ForceClose(ts) =>
        EndBarKeepsTicks(s, false, ts);
      case SessionOpen(ts) =>
        EndBarKeepsTicks(s, false, ts);
    }
  }

  /** Tick `i` of a bar met the close test when it came. */
  predicate MeetsTest(size: BarSize, tickSize: real, ticks: seq<Tick>, i: nat)
    requires IsValidSize(size) && i < |ticks|
  {
    ShouldClose(size, tickSize, ticks[0].ts, ticks[0].price, Total(ticks[..i], Volume), ticks[i])
  }

  /** No tick before index `n` of a bar met the close test. */
  ghost predicate NoneMeets(size: BarSize, tickSize: real, ticks: seq<Tick>, n: nat)
    requires IsValidSize(size) && n <= |ticks|
  {
    forall i: nat | i < n :: !MeetsTest(size, tickSize, ticks, i)
  }

  /** A bar ends with its tick exactly when that tick is the first to meet the test. */
  ghost predicate WellCut(size: BarSize, tickSize: real, b: Bar)
    requires IsValidSize(size)
  {
    && b.ticks != []
    && NoneMeets(size, tickSize, b.ticks, |b.ticks| - 1)
    && (b.triggered <==> MeetsTest(size, tickSize, b.ticks, |b.ticks| - 1))
  }

  ghost predicate Inv(size: BarSize, tickSize: real, s: Series)
    requires IsValidSize(size)
  {
    && (forall b | b in s.closed :: WellCut(size, tickSize, b))
    && NoneMeets(size, tickSize, s.open, |s.open|)
    && (forall t | t in s.open :: IsAccumulatable(t))
  }

  /** The tick that opens a bar never meets the test. */
  lemma FirstNeverMeets(size: BarSize, tickSize: real, t: Tick)
    requires IsValidSize(size) && tickSize > 0.0
    ensures !ShouldClose(size, tickSize, t.ts, t.price, 0, t)
  {
    match size.kind
    case TimeBars =>
      WithinWindow(t.ts, size.size * NANOSECONDS);
    case RangeBars =>
      RangePositive(size.size, tickSize);
    case VolumeBars =>
  }

  lemma RangePositive(size: nat, tickSize: real)
    requires size > 0 && tickSize > 0.0
    ensures size as real * tickSize > 0.0
  {
    var r := size as real;
    assert (r - 1.0) * tickSize >= 0.0;
  }

  lemma WithinWindow(ts: int, sizeNs: int)
    requires sizeNs > 0
    ensures ts < TruncatedDiv(ts, sizeNs) * sizeNs + sizeNs
  {
    if ts >= 0 {
      assert ts == ts / sizeNs * sizeNs + ts % sizeNs;
    } else {
      var q := (-ts) / sizeNs;
      assert -ts == q * sizeNs + (-ts) % sizeNs;
      assert TruncatedDiv(ts, sizeNs) * sizeNs == -(q * sizeNs);
    }
  }

  /** Earlier tests do not depend on the ticks that follow. */
  lemma TestsOfPrefix(size: BarSize, tickSize: real, ticks: seq<Tick>, t: Tick, i: nat)
    requires IsValidSize(size) && i < |ticks|
    ensures MeetsTest(size, tickSize, ticks + [t], i) <==> MeetsTest(size, tickSize, ticks, i)
  {
    assert (ticks + [t])[..i] == ticks[..i];
  }

  lemma TickStepKeepsInv(size: BarSize, tickSize: real, s: Series, t: Tick)
    requires IsValidSize(size) && tickSize > 0.0 && Inv(size, tickSize, s)
    ensures Inv(size, tickSize, TickStep(size, tickSize, s, t))
  {
    if IsAccumulatable(t) {
      var all := s.open + [t];
      forall i: nat | i < |s.open| ensures !MeetsTest(size, tickSize, all, i) {
        TestsOfPrefix(size, tickSize, s.open, t, i);
      }
      assert all[..|s.open|] == s.open;
      if s.open == [] {
        FirstNeverMeets(size, tickSize, t);
      }
      assert NoneMeets(size, tickSize, all, |s.open|);
    }
  }

  lemma EndBarKeepsInv(size: BarSize, tickSize: real, s: Series, ts: int)
    requires IsValidSize(size) && Inv(size, tickSize, s)
    ensures Inv(size, tickSize, EndBar(s, false, ts))
  {
    if s.open != [] {
      assert !MeetsTest(size, tickSize, s.open, |s.open| - 1);
      assert WellCut(size, tickSize, Bar(s.open, false, ts));
    }
  }

  lemma {:induction false} RunInv(size: BarSize, tickSize: real, events: seq<Event>)
    requires IsValidSize(size) && tickSize > 0.0
    ensures Inv(size, tickSize, Run(size, tickSize, events))
  {
    if events == [] {
    } else {
      var n := |events| - 1;
      var s := Run(size, tickSize, events[..n]);
      RunInv(size, tickSize, events[..n]);
      match events[n]
      case TickEvent(t) => TickStepKeepsInv(size, tickSize, s, t);
      case ForceClose(ts) => EndBarKeepsInv(size, tickSize, s, ts);
      case SessionOpen(ts) => EndBarKeepsInv(size, tickSize, s, ts);
    }
  }

  /** In every run, a bar that has ended has a tick, and one that a tick ended has two. */
  lemma EnoughTicks(size: BarSize, tickSize: real, events: seq<Event>, b: Bar)
    requires IsValidSize(size) && tickSize > 0.0
    requires b in Run(size, tickSize, events).closed
    ensures |b.ticks| >= if b.triggered then 2 else 1
  {
    RunInv(size, tickSize, events);
    assert WellCut(size, tickSize, b);
    assert b.ticks[..0] == [];
    FirstNeverMeets(size, tickSize, b.ticks[0]);
  }

  /** The bars of a series: those that have ended, and the open one, which nothing has ended. */
  function Bars(s: Series): seq<Bar> {
    s.closed + [Bar(s.open, false, 0)]
  }

  /** In every run, a tick of a bar met the close test exactly when it is the last one and has
      ended the bar; so no tick of an open bar met it. */
  lemma OnlyLastTickCloses(size: BarSize, tickSize: real, events: seq<Event>, b: Bar, i: nat)
    requires IsValidSize(size) && tickSize > 0.0
    requires b in Bars(Run(size, tickSize, events)) && i < |b.ticks|
    ensures MeetsTest(size, tickSize, b.ticks, i) <==> b.triggered && i == |b.ticks| - 1
  {
    RunInv(size, tickSize, events);
    var s := Run(size, tickSize, events);
    hide Run, MeetsTest;
    if b in s.closed {
      assert WellCut(size, tickSize, b);
    }
  }

  /** In every run the volume of a volume bar before one of its ticks had reached the size exactly
      when that tick ended the bar. */
  lemma VolumeTest(size: BarSize, tickSize: real, events: seq<Event>, b: Bar, i: nat)
    requires IsValidSize(size) && size.kind.VolumeBars? && tickSize > 0.0
    requires b in Bars(Run(size, tickSize, events)) && i < |b.ticks|
    ensures Total(b.ticks[..i], Volume) >= size.size <==> b.triggered && i == |b.ticks| - 1
  {
    hide Run, Total, Bars;
    OnlyLastTickCloses(size, tickSize, events, b, i);
  }

  /** In every run a tick of a range bar is the size or more away from the first price exactly when
      it ended the bar. */
  lemma RangeBarSize(size: BarSize, tickSize: real, events: seq<Event>, b: Bar, i: nat)
    requires IsValidSize(size) && size.kind.RangeBars? && tickSize > 0.0
    requires b in Bars(Run(size, tickSize, events)) && i < |b.ticks|
    ensures Reals.Abs(b.ticks[i].price - b.ticks[0].price) >= size.size as real * tickSize
            <==> b.triggered && i == |b.ticks| - 1
  {
    hide Run, Total, Bars;
    OnlyLastTickCloses(size, tickSize, events, b, i);
  }

  /** Where the time of a bar ends that was opened at a stamp: at the next multiple of the size in
      nanoseconds, but one multiple later for a negative stamp that is not itself one. */
  function TimeEnd(size: nat, openTs: int): int
    requires size > 0
  {
    var ns := size * 1_000_000_000;
    openTs / ns * ns + ns + if openTs < 0 && openTs % ns != 0 then ns else 0
  }

  lemma TruncatedIsFloor(x: int, y: int)
    requires y > 0
    ensures TruncatedDiv(x, y) == x / y + if x < 0 && x % y != 0 then 1 else 0
  {
    if x < 0 {
      var q, r := (-x) / y, (-x) % y;
      assert -x == q * y + r;
      if r == 0 {
        Bits.ModUnique(x, y, -q, 0);
      } else {
        Bits.ModUnique(x, y, -q - 1, y - r);
      }
    }
  }

  lemma TimeEndMeans(size: BarSize, openTs: int)
    requires size.size > 0
    ensures var ns := size.size * NANOSECONDS;
            TruncatedDiv(openTs, ns) * ns + ns == TimeEnd(size.size, openTs)
  {
    var ns := size.size * NANOSECONDS;
    TruncatedIsFloor(openTs, ns);
    var q := openTs / ns;
    assert (q + 1) * ns == q * ns + ns;
  }

  /** In every run, whatever the stamps, a tick of a time bar comes at or after the end of the bar's
      time exactly when it ended the bar. */
  lemma TimeBarEnd(size: BarSize, tickSize: real, events: seq<Event>, b: Bar, i: nat)
    requires IsValidSize(size) && size.kind.TimeBars? && tickSize > 0.0
    requires b in Bars(Run(size, tickSize, events)) && i < |b.ticks|
    ensures b.ticks[i].ts >= TimeEnd(size.size, b.ticks[0].ts) <==> b.triggered && i == |b.ticks| - 1
  {
    hide Run, Total, Bars, TimeEnd, TruncatedDiv;
    OnlyLastTickCloses(size, tickSize, events, b, i);
    TimeEndMeans(size, b.ticks[0].ts);
  }

  /** A volume bar ends with the first tick that finds the size reached: without its last
      tick it holds at least the size, without its last two ticks it holds less. */
  lemma VolumeBarSize(size: BarSize, tickSize: real, events: seq<Event>, b: Bar)
    requires IsValidSize(size) && size.kind.VolumeBars? && tickSize > 0.0
    requires b in Run(size, tickSize, events).closed && b.triggered
    ensures |b.ticks| >= 2
    ensures Total(b.ticks[..|b.ticks| - 1], Volume) >= size.size
    ensures Total(b.ticks[..|b.ticks| - 2], Volume) < size.size
  {
    hide Run, Total;
    var n := |b.ticks|;
    EnoughTicks(size, tickSize, events, b);
    OnlyLastTickCloses(size, tickSize, events, b, n - 1);
    OnlyLastTickCloses(size, tickSize, events, b, n - 2);
  }

  /** The stamps of a list of ticks never go back and never are negative. */
  ghost predicate Monotone(ticks: seq<Tick>) {
    && (forall i | 0 <= i < |ticks| :: ticks[i].ts >= 0)
    && (forall i, j | 0 <= i < j < |ticks| :: ticks[i].ts <= ticks[j].ts)
  }

  /** Where the ticks of a bar lie among all ticks of a series. */
  lemma {:induction false} FlattenPart(lists: seq<seq<Tick>>, k: nat) returns (at: nat)
    requires k < |lists|
    ensures at + |lists[k]| <= |Flatten(lists)|
    ensures Flatten(lists)[at..at + |lists[k]|] == lists[k]
  {
    var n := |lists| - 1;
    if k == n {
      at := |Flatten(lists[..n])|;
    } else {
      at := FlattenPart(lists[..n], k);
      assert lists[..n][k] == lists[k];
      assert Flatten(lists) == Flatten(lists[..n]) + lists[n];
    }
  }

  /** Of two bars, all ticks of the earlier one come before all ticks of the later one. */
  lemma {:induction false} FlattenOrder(lists: seq<seq<Tick>>, a: nat, b: nat) returns (atA: nat, atB: nat)
    requires a < b < |lists|
    ensures atA + |lists[a]| <= atB && atB + |lists[b]| <= |Flatten(lists)|
    ensures Flatten(lists)[atA..atA + |lists[a]|] == lists[a]
    ensures Flatten(lists)[atB..atB + |lists[b]|] == lists[b]
  {
    var n := |lists| - 1;
    assert Flatten(lists) == Flatten(lists[..n]) + lists[n];
    assert lists[..n][a] == lists[a];
    if b == n {
      atA := FlattenPart(lists[..n], a);
      atB := |Flatten(lists[..n])|;
    } else {
      assert lists[..n][b] == lists[b];
      atA, atB := FlattenOrder(lists[..n], a, b);
    }
  }

  lemma MonotonePart(ticks: seq<Tick>, at: nat, part: seq<Tick>)
    requires Monotone(ticks) && at + |part| <= |ticks| && ticks[at..at + |part|] == part
    ensures Monotone(part)
  {
    assert forall i | 0 <= i < |part| :: part[i] == ticks[at + i];
  }

  /** The stamps of the ticks that count never go back. */
  ghost predicate MonotoneStamps(events: seq<Event>) {
    Monotone(Accumulatable(TicksOf(events)))
  }

  lemma BarMonotone(size: BarSize, tickSize: real, events: seq<Event>, k: nat)
    requires IsValidSize(size) && MonotoneStamps(events)
    requires k < |Bars(Run(size, tickSize, events))|
    ensures Monotone(Bars(Run(size, tickSize, events))[k].ticks)
  {
    var s := Run(size, tickSize, events);
    BarsPartition(size, tickSize, events);
    hide Run, Accumulatable;
    PartMonotone(s, k);
  }

  lemma PartMonotone(s: Series, k: nat)
    requires Monotone(AllTicks(s)) && k < |Bars(s)|
    ensures Monotone(Bars(s)[k].ticks)
  {
    var lists := BarTicks(s.closed);
    if k < |s.closed| {
      var at := FlattenPart(lists, k);
      FirstPart(Flatten(lists), s.open, at, lists[k]);
      hide *;
      MonotonePart(Flatten(lists) + s.open, at, lists[k]);
    } else {
      hide *;
      MonotonePart(Flatten(lists) + s.open, |Flatten(lists)|, s.open);
    }
  }

  lemma FirstPart(a: seq<Tick>, b: seq<Tick>, at: nat, part: seq<Tick>)
    requires at + |part| <= |a| && a[at..at + |part|] == part
    ensures (a + b)[at..at + |part|] == part
  {}

  lemma WindowBounds(size: BarSize, ts: int)
    requires size.size > 0 && ts >= 0
    ensures var ns := size.size * NANOSECONDS;
            WindowIndex(size, ts) * ns <= ts < WindowIndex(size, ts) * ns + ns
  {
    var ns := size.size * NANOSECONDS;
    assert ts == ts / ns * ns + ts % ns;
  }

  /** Window numbers compare like the stamps against the end of a window. */
  lemma WindowCompare(q: int, r: int, ns: int, ts: int)
    requires ns > 0 && r * ns <= ts < r * ns + ns
    ensures ts >= q * ns + ns <==> r > q
    ensures q * ns <= ts < q * ns + ns <==> r == q
  {
    if r > q {
      MultiplesApart(q, r, ns);
    } else if r < q {
      MultiplesApart(r, q, ns);
    }
  }

  lemma MultiplesApart(q: int, r: int, ns: int)
    requires ns > 0 && q < r
    ensures q * ns + ns <= r * ns
  {
    var d := r - q - 1;
    assert d * ns >= 0;
    Distribute(q, d, ns);
  }

  lemma Distribute(q: int, d: int, ns: int)
    ensures (q + 1 + d) * ns == q * ns + ns + d * ns
  {}

  lemma WindowTest(size: BarSize, tickSize: real, ticks: seq<Tick>, i: nat)
    requires IsValidSize(size) && size.kind.TimeBars? && i < |ticks| && Monotone(ticks)
    ensures MeetsTest(size, tickSize, ticks, i) <==> WindowIndex(size, ticks[i].ts) > WindowIndex(size, ticks[0].ts)
  {
    var ns := size.size * NANOSECONDS;
    WindowBounds(size, ticks[i].ts);
    WindowCompare(WindowIndex(size, ticks[0].ts), WindowIndex(size, ticks[i].ts), ns, ticks[i].ts);
  }

  lemma WindowMonotone(size: BarSize, s: int, t: int)
    requires size.size > 0 && 0 <= s <= t
    ensures WindowIndex(size, s) <= WindowIndex(size, t)
  {
    var ns := size.size * NANOSECONDS;
    WindowBounds(size, s);
    WindowBounds(size, t);
    WindowCompare(WindowIndex(size, s), WindowIndex(size, t), ns, t);
  }

  /** With stamps that never go back, every tick of a time bar, ended or open, but the one that
      ended it lies in the window of its first tick, counted in the size in nanoseconds, and
      the one that ended it lies in a later window. */
  lemma TimeBarWindow(size: BarSize, tickSize: real, events: seq<Event>, k: nat, i: nat)
    requires IsValidSize(size) && size.kind.TimeBars? && tickSize > 0.0 && MonotoneStamps(events)
    requires k < |Bars(Run(size, tickSize, events))|
    requires i < |Bars(Run(size, tickSize, events))[k].ticks|
    ensures var b, ns := Bars(Run(size, tickSize, events))[k], size.size * 1_000_000_000;
            if b.triggered && i == |b.ticks| - 1 then b.ticks[i].ts / ns > b.ticks[0].ts / ns
            else b.ticks[i].ts / ns == b.ticks[0].ts / ns
  {
    var b := Bars(Run(size, tickSize, events))[k];
    hide Run, Bars;
    BarMonotone(size, tickSize, events, k);
    OnlyLastTickCloses(size, tickSize, events, b, i);
    WindowTest(size, tickSize, b.ticks, i);
    WindowMonotone(size, b.ticks[0].ts, b.ticks[i].ts);
    WindowIs(size, b.ticks[0].ts);
    WindowIs(size, b.ticks[i].ts);
  }

  lemma WindowIs(size: BarSize, ts: int)
    requires size.size > 0 && ts >= 0
    ensures WindowIndex(size, ts) == ts / (size.size * 1_000_000_000)
  {}

  lemma LaterBarLaterStamps(s: Series, a: nat, b: nat)
    requires a < b < |s.closed| && Monotone(AllTicks(s))
    requires s.closed[a].ticks != [] && s.closed[b].ticks != []
    ensures 0 <= s.closed[a].ticks[0].ts && 0 <= s.closed[a].ticks[|s.closed[a].ticks| - 1].ts
    ensures s.closed[a].ticks[|s.closed[a].ticks| - 1].ts <= s.closed[b].ticks[0].ts
  {
    var lists, all := BarTicks(s.closed), AllTicks(s);
    var last := |lists[a]| - 1;
    var atA, atB := FlattenOrder(lists, a, b);
    assert all[atA] == Flatten(lists)[atA..atA + |lists[a]|][0];
    assert all[atA + last] == Flatten(lists)[atA..atA + |lists[a]|][last];
    assert all[atB] == Flatten(lists)[atB..atB + |lists[b]|][0];
  }

  /** Every bar after a bar that a tick ended lies in a later window; so the windows of
      the bars that ticks ended strictly increase. */
  lemma WindowsIncrease(size: BarSize, tickSize: real, events: seq<Event>, a: nat, b: nat)
    requires IsValidSize(size) && size.kind.TimeBars? && tickSize > 0.0 && MonotoneStamps(events)
    requires a < b < |Run(size, tickSize, events).closed|
    requires Run(size, tickSize, events).closed[a].triggered
    ensures var bars := Run(size, tickSize, events).closed;
            && bars[a].ticks != [] && bars[b].ticks != []
            && bars[a].ticks[0].ts / (size.size * 1_000_000_000) < bars[b].ticks[0].ts / (size.size * 1_000_000_000)
  {
    var s := Run(size, tickSize, events);
    hide *;
    var first, later := s.closed[a], s.closed[b];
    assert first in s.closed && later in s.closed;
    EnoughTicks(size, tickSize, events, first);
    EnoughTicks(size, tickSize, events, later);
    TimeBarWindow(size, tickSize, events, a, |first.ticks| - 1);
    StampsInOrder(size, tickSize, events, a, b);
    WindowMonotone(size, first.ticks[|first.ticks| - 1].ts, later.ticks[0].ts);
  }

  lemma StampsInOrder(size: BarSize, tickSize: real, events: seq<Event>, a: nat, b: nat)
    requires IsValidSize(size) && MonotoneStamps(events)
    requires a < b < |Run(size, tickSize, events).closed|
    requires Run(size, tickSize, events).closed[a].ticks != [] && Run(size, tickSize, events).closed[b].ticks != []
    ensures var bars := Run(size, tickSize, events).closed;
            0 <= bars[a].ticks[0].ts && 0 <= bars[a].ticks[|bars[a].ticks| - 1].ts <= bars[b].ticks[0].ts
  {
    BarsPartition(size, tickSize, events);
    LaterBarLaterStamps(Run(size, tickSize, events), a, b);
  }
}
